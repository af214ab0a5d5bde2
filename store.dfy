/**
 * The checkpoint quiz engine of lib/quiz.ts over an in-memory relational store.
 *
 * The tables the engine writes (users, sessions, session checkpoints, attempts,
 * redeem tokens) are fields of `Store`; campaigns, categories, questions,
 * choices and checkpoint tokens are read-only reference data in `catalog`.
 * Each exported operation runs in one transaction: it either commits all of
 * its writes, or returns null / throws with nothing written.
 */
module QuizStore {
  import opened QuizTypes
  import opened QuizQueries

  /** Reference data the engine only reads. */
  datatype Catalog = Catalog(
    campaigns: map<Id, Campaign>,
    categories: map<Id, string>,
    questions: map<Id, Question>,
    choices: seq<Choice>,
    checkpointTokens: seq<CheckpointToken>)
  {
    /** Primary keys of the reference tables. */
    ghost predicate Valid() {
      && (forall k :: k in campaigns ==> campaigns[k].id == k)
      && (forall k :: k in questions ==> questions[k].id == k)
      && (forall i, j :: 0 <= i < j < |choices| ==> choices[i].id != choices[j].id)
    }

    /** The tag is of the campaign at this index and joins to an existing category. */
    predicate Joins(t: CheckpointToken, campaignId: Id, checkpointIndex: int) {
      t.campaignId == campaignId && t.checkpointIndex == checkpointIndex && t.categoryId in categories
    }

    predicate HasTag(campaignId: Id, checkpointIndex: int) {
      exists t :: t in checkpointTokens && Joins(t, campaignId, checkpointIndex)
    }

    predicate TagCategory(campaignId: Id, checkpointIndex: int, categoryId: Id) {
      exists t :: t in checkpointTokens && Joins(t, campaignId, checkpointIndex) && t.categoryId == categoryId
    }

    /** The choice belongs to the question and carries this answer flag. */
    predicate IsAnswer(choiceId: Id, questionId: Id, isCorrect: bool) {
      exists c :: c in choices && c.id == choiceId && c.questionId == questionId && c.isCorrect == isCorrect
    }

    /** `SELECT ... FROM quiz_choices WHERE id = $1 AND question_id = $2` finds a row. */
    predicate ChoiceOf(choiceId: Id, questionId: Id) {
      IsAnswer(choiceId, questionId, true) || IsAnswer(choiceId, questionId, false)
    }

    predicate HasCorrectChoice(questionId: Id) {
      exists c :: c in choices && c.questionId == questionId && c.isCorrect
    }
  }

  /** Rows keyed by their own ids are as many as their keys. */
  lemma {:induction false} KeyedRowsCount(keys: set<Id>, rows: map<Id, SessionCheckpoint>)
    ensures (forall k :: k in keys ==> k in rows && rows[k].id == k) ==>
      |set k | k in keys :: rows[k]| == |keys|
    decreases |keys|
  {
    if (forall k :: k in keys ==> k in rows && rows[k].id == k) && keys != {} {
      var x :| x in keys;
      KeyedRowsCount(keys - {x}, rows);
      assert (set k | k in keys :: rows[k]) == (set k | k in keys - {x} :: rows[k]) + {rows[x]};
      assert rows[x] !in (set k | k in keys - {x} :: rows[k]);
    }
  }

  /** session_checkpoints' primary key below `next` and UNIQUE (session_id, checkpoint_index). */
  ghost predicate KeyedCheckpoints(rows: map<Id, SessionCheckpoint>, next: Id) {
    && (forall k :: k in rows ==> rows[k].id == k && k < next)
    && (forall a, b ::
          (a in rows && b in rows
           && rows[a].sessionId == rows[b].sessionId
           && rows[a].checkpointIndex == rows[b].checkpointIndex) ==> a == b)
  }

  /** Rewriting a row's other columns keeps both keys. */
  lemma RewriteKeepsKeys(rows: map<Id, SessionCheckpoint>, next: Id, k: Id, row: SessionCheckpoint)
    requires KeyedCheckpoints(rows, next) && k in rows
    requires row.id == k && row.sessionId == rows[k].sessionId && row.checkpointIndex == rows[k].checkpointIndex
    ensures KeyedCheckpoints(rows[k := row], next)
  {
  }

  /**
   * The outcome of one transaction: the function's value, a null return
   * (nothing was written), or a thrown error (the transaction rolled back).
   */
  datatype TxResult<T> = Ok(value: T) | Null | Threw

  datatype ScannedCheckpoint = ScannedCheckpoint(token: CheckpointToken, categoryName: string)

  /** What getOrAssignCheckpointQuestion returns. */
  datatype Assignment = Assignment(
    sessionCheckpoint: SessionCheckpoint,
    question: Option<QuestionView>,
    choices: seq<ChoiceView>)

  datatype NewQuestion = NewQuestion(question: QuestionView, choices: seq<ChoiceView>)

  function NewQuestionId(n: Option<NewQuestion>): Option<Id> {
    if n.Some? then Some(n.value.question.id) else None
  }

  /** The outcome of the checks submitCheckpointAnswer makes before writing. */
  datatype Verdict =
    | Rejected
    | Broken
    | Accepted(scp: SessionCheckpoint, session: UserSession, campaign: Campaign, categoryId: Id,
               isCorrect: bool, correctChoiceId: Id, explanation: Option<string>)

  /** What submitCheckpointAnswer returns. */
  datatype GradeResult = GradeResult(
    isCorrect: bool,
    correctChoiceId: Id,
    explanation: Option<string>,
    isCheckpointComplete: bool,
    isAllComplete: bool,
    checkpointIndex: int,
    categoryName: string,
    redeemToken: Option<string>,
    newQuestion: Option<NewQuestion>,
    progress: Progress)

  /** What validateAndConsumeRedeemToken returns. */
  datatype Redemption = Redemption(
    sessionId: Id,
    campaignTitle: string,
    campaignSlug: string,
    redeemedAt: int)

  class Store {
    const catalog: Catalog

    var users: map<Id, LineUser>
    var sessions: map<Id, UserSession>
    var sessionCheckpoints: map<Id, SessionCheckpoint>
    var attempts: seq<CheckpointAttempt>
    var redeemTokens: map<Id, RedeemToken>

    // The next value of each table's BIGSERIAL key.
    var nextUserId: Id
    var nextSessionId: Id
    var nextCheckpointId: Id
    var nextAttemptId: Id
    var nextRedeemId: Id

    // -------------------------------------------------------------------
    // Keys and unique constraints
    // -------------------------------------------------------------------

    /** line_users: primary key; UNIQUE (line_uid). */
    ghost predicate UsersValid()
      reads this`users, this`nextUserId
    {
      && (forall k :: k in users ==> users[k].id == k && k < nextUserId)
      && (forall a, b :: a in users && b in users && users[a].lineUid == users[b].lineUid ==> a == b)
    }

    /** user_sessions: primary key; UNIQUE (user_id, campaign_id). */
    ghost predicate SessionsValid()
      reads this`sessions, this`nextSessionId
    {
      && (forall k :: k in sessions ==> sessions[k].id == k && k < nextSessionId)
      && (forall a, b ::
            (a in sessions && b in sessions
             && sessions[a].userId == sessions[b].userId
             && sessions[a].campaignId == sessions[b].campaignId) ==> a == b)
    }

    /** session_checkpoints: primary key; UNIQUE (session_id, checkpoint_index). */
    ghost predicate CheckpointsValid()
      reads this`sessionCheckpoints, this`nextCheckpointId
    {
      KeyedCheckpoints(sessionCheckpoints, nextCheckpointId)
    }

    /** checkpoint_attempts: keys increase along the log; each names a checkpoint key already issued. */
    ghost predicate AttemptsValid()
      reads this`attempts, this`nextAttemptId, this`nextCheckpointId
    {
      && (forall i :: 0 <= i < |attempts| ==> attempts[i].id < nextAttemptId)
      && (forall i :: 0 <= i < |attempts| ==> attempts[i].sessionCheckpointId < nextCheckpointId)
      && (forall i, j :: 0 <= i < j < |attempts| ==> attempts[i].id < attempts[j].id)
    }

    /** redeem_tokens: primary key; UNIQUE (session_id); UNIQUE (token). */
    ghost predicate RedeemTokensValid()
      reads this`redeemTokens, this`nextRedeemId
    {
      && (forall k :: k in redeemTokens ==> redeemTokens[k].id == k && k < nextRedeemId)
      && (forall a, b ::
            (a in redeemTokens && b in redeemTokens
             && redeemTokens[a].sessionId == redeemTokens[b].sessionId) ==> a == b)
      && (forall a, b ::
            (a in redeemTokens && b in redeemTokens
             && redeemTokens[a].token == redeemTokens[b].token) ==> a == b)
    }

    ghost predicate Valid()
      reads this
    {
      && catalog.Valid()
      && UsersValid()
      && SessionsValid()
      && CheckpointsValid()
      && AttemptsValid()
      && RedeemTokensValid()
    }

    constructor (catalog: Catalog)
      requires catalog.Valid()
      ensures Valid() && this.catalog == catalog
      ensures users == map[] && sessions == map[] && sessionCheckpoints == map[]
      ensures attempts == [] && redeemTokens == map[]
    {
      this.catalog := catalog;
      users, sessions, sessionCheckpoints := map[], map[], map[];
      attempts, redeemTokens := [], map[];
      nextUserId, nextSessionId, nextCheckpointId, nextAttemptId, nextRedeemId := 1, 1, 1, 1, 1;
    }

    // -------------------------------------------------------------------
    // Queries over the tables
    // -------------------------------------------------------------------

    function UserIds(lineUid: string): set<Id>
      reads this`users
    {
      set k | k in users && users[k].lineUid == lineUid
    }

    function SessionIds(userId: Id, campaignId: Id): set<Id>
      reads this`sessions
    {
      set k | k in sessions && sessions[k].userId == userId && sessions[k].campaignId == campaignId
    }

    function CheckpointIds(sessionId: Id, checkpointIndex: int): set<Id>
      reads this`sessionCheckpoints
    {
      set k | k in sessionCheckpoints && sessionCheckpoints[k].sessionId == sessionId
        && sessionCheckpoints[k].checkpointIndex == checkpointIndex
    }

    /** The session-checkpoint row of (session, index); unique under Valid(). */
    ghost function CheckpointRow(sessionId: Id, checkpointIndex: int): SessionCheckpoint
      reads this`sessionCheckpoints
      requires CheckpointIds(sessionId, checkpointIndex) != {}
    {
      var k :| k in CheckpointIds(sessionId, checkpointIndex);
      sessionCheckpoints[k]
    }

    /** `SELECT checkpoint_index, is_completed FROM session_checkpoints WHERE session_id = $1` */
    function RowsOf(sessionId: Id): set<SessionCheckpoint>
      reads this`sessionCheckpoints
    {
      set k | k in sessionCheckpoints && sessionCheckpoints[k].sessionId == sessionId :: sessionCheckpoints[k]
    }

    /** The keys of the session's completed rows. */
    function CompletedKeys(sessionId: Id): set<Id>
      reads this`sessionCheckpoints
    {
      set k | k in sessionCheckpoints && sessionCheckpoints[k].sessionId == sessionId && sessionCheckpoints[k].isCompleted
    }

    /**
     * `SELECT COUNT(*) ... WHERE session_id = $1 AND is_completed = true`:
     * under the primary key, one per completed row of the session.
     */
    function CompletedCount(sessionId: Id): (n: nat)
      reads this`sessionCheckpoints, this`nextCheckpointId
      ensures CheckpointsValid() ==> n == |CompletedKeys(sessionId)|
    {
      var keys := CompletedKeys(sessionId);
      assert CompletedRows(RowsOf(sessionId)) == set k | k in keys :: sessionCheckpoints[k];
      KeyedRowsCount(keys, sessionCheckpoints);
      |CompletedRows(RowsOf(sessionId))|
    }

    /** `SELECT DISTINCT question_id FROM checkpoint_attempts WHERE session_checkpoint_id = $1` */
    function AttemptedQuestions(scpId: Id): (qs: set<Id>)
      reads this`attempts
      ensures forall i :: 0 <= i < |attempts| && attempts[i].sessionCheckpointId == scpId ==> attempts[i].questionId in qs
      ensures forall q :: q in qs ==>
        exists i :: 0 <= i < |attempts| && attempts[i].sessionCheckpointId == scpId && attempts[i].questionId == q
    {
      set i | 0 <= i < |attempts| && attempts[i].sessionCheckpointId == scpId :: attempts[i].questionId
    }

    function TokenIds(sessionId: Id): set<Id>
      reads this`redeemTokens
    {
      set k | k in redeemTokens && redeemTokens[k].sessionId == sessionId
    }

    predicate TokenFresh(token: string)
      reads this`redeemTokens
    {
      forall k :: k in redeemTokens ==> redeemTokens[k].token != token
    }

    // -------------------------------------------------------------------
    // User management
    // -------------------------------------------------------------------

    /**
     * findOrCreateUser: upsert keyed by line_uid; a display name or picture
     * that is not supplied keeps its stored value.
     */
    method FindOrCreateUser(lineUid: string, displayName: Option<string>, pictureUrl: Option<string>)
      returns (user: LineUser)
      requires Valid()
      modifies this`users, this`nextUserId
      ensures Valid()
      ensures user.lineUid == lineUid && users == old(users)[user.id := user]
      ensures UserIds(lineUid) == {user.id}
      // the BIGSERIAL default is drawn before the conflict is detected
      ensures nextUserId == old(nextUserId) + 1
      ensures old(UserIds(lineUid)) != {} ==>
        && user.id in old(users)
        && user.displayName == Coalesce(displayName, old(users)[user.id].displayName)
        && user.pictureUrl == Coalesce(pictureUrl, old(users)[user.id].pictureUrl)
      ensures old(UserIds(lineUid)) == {} ==>
        && user == LineUser(old(nextUserId), lineUid, displayName, pictureUrl)
    {
      if UserIds(lineUid) != {} {
        var k :| k in UserIds(lineUid);
        user := LineUser(k, lineUid,
          Coalesce(displayName, users[k].displayName),
          Coalesce(pictureUrl, users[k].pictureUrl));
      } else {
        forall k | k in users ensures users[k].lineUid != lineUid {
          assert k !in UserIds(lineUid);
        }
        user := LineUser(nextUserId, lineUid, displayName, pictureUrl);
      }
      users := users[user.id := user];
      nextUserId := nextUserId + 1;
    }

    // -------------------------------------------------------------------
    // Checkpoint tokens
    // -------------------------------------------------------------------

    /** validateCheckpointToken: an unexpired tag with this token, joined to its category. */
    method ValidateCheckpointToken(token: string, now: int) returns (r: Option<ScannedCheckpoint>)
      ensures r.Some? ==>
        && r.value.token in catalog.checkpointTokens
        && r.value.token.token == token
        && r.value.token.expiresAt > now
        && r.value.token.categoryId in catalog.categories
        && r.value.categoryName == catalog.categories[r.value.token.categoryId]
      ensures r.None? ==>
        forall t :: t in catalog.checkpointTokens && t.token == token && t.expiresAt > now ==>
          t.categoryId !in catalog.categories
    {
      if exists t :: t in catalog.checkpointTokens && t.token == token && t.expiresAt > now && t.categoryId in catalog.categories {
        var t :| t in catalog.checkpointTokens && t.token == token && t.expiresAt > now && t.categoryId in catalog.categories;
        r := Some(ScannedCheckpoint(t, catalog.categories[t.categoryId]));
      } else {
        r := None;
      }
    }

    // -------------------------------------------------------------------
    // Sessions
    // -------------------------------------------------------------------

    /** getOrCreateUserSession: the one session of (user, campaign), created on first use. */
    method GetOrCreateUserSession(userId: Id, campaignId: Id, now: int) returns (session: UserSession)
      requires Valid()
      modifies this`sessions, this`nextSessionId
      ensures Valid()
      ensures session.userId == userId && session.campaignId == campaignId
      ensures session.id in sessions && sessions[session.id] == session
      ensures SessionIds(userId, campaignId) == {session.id}
      ensures old(SessionIds(userId, campaignId)) != {} ==>
        sessions == old(sessions) && nextSessionId == old(nextSessionId)
      ensures old(SessionIds(userId, campaignId)) == {} ==>
        && session == UserSession(old(nextSessionId), campaignId, userId, now, None)
        && sessions == old(sessions)[session.id := session]
        && nextSessionId == old(nextSessionId) + 1
    {
      if SessionIds(userId, campaignId) != {} {
        var k :| k in SessionIds(userId, campaignId);
        session := sessions[k];
      } else {
        forall k | k in sessions ensures sessions[k].userId != userId || sessions[k].campaignId != campaignId {
          assert k !in SessionIds(userId, campaignId);
        }
        session := UserSession(nextSessionId, campaignId, userId, now, None);
        sessions := sessions[session.id := session];
        nextSessionId := nextSessionId + 1;
      }
    }

    // -------------------------------------------------------------------
    // Question assignment
    // -------------------------------------------------------------------

    /**
     * What a player is shown for a checkpoint row: nothing once it is
     * completed, otherwise its assigned question and that question's
     * choices sorted by sort_order.
     */
    predicate Presents(a: Assignment) {
      if a.sessionCheckpoint.isCompleted then
        a.question.None? && a.choices == []
      else
        && a.sessionCheckpoint.assignedQuestionId.Some?
        && a.sessionCheckpoint.assignedQuestionId.value in catalog.questions
        && a.question == Some(catalog.questions[a.sessionCheckpoint.assignedQuestionId.value].View())
        && ShowsChoicesOf(a.choices, catalog.choices, a.sessionCheckpoint.assignedQuestionId.value)
    }

    /** The answer for a stored row: nothing once completed, else its question and choices. */
    function ShowCheckpoint(row: SessionCheckpoint): (r: Option<Assignment>)
      ensures r.Some? ==> Presents(r.value) && r.value.sessionCheckpoint == row
      ensures r.None? <==>
        !row.isCompleted && (row.assignedQuestionId.None? || row.assignedQuestionId.value !in catalog.questions)
    {
      if row.isCompleted then Some(Assignment(row, None, []))
      else if row.assignedQuestionId.None? || row.assignedQuestionId.value !in catalog.questions then None
      else
        var qid := row.assignedQuestionId.value;
        Some(Assignment(row, Some(catalog.questions[qid].View()), QuestionChoices(catalog.choices, qid)))
    }

    /** Under the unique constraint, a row of (session, index) is the only one. */
    lemma SingleCheckpoint(sessionId: Id, checkpointIndex: int, k: Id)
      requires Valid() && k in CheckpointIds(sessionId, checkpointIndex)
      ensures CheckpointIds(sessionId, checkpointIndex) == {k}
      ensures CheckpointRow(sessionId, checkpointIndex) == sessionCheckpoints[k]
    {
    }

    /** `INSERT INTO session_checkpoints ...` for a (session, index) that has no row yet. */
    method InsertCheckpoint(sessionId: Id, checkpointIndex: int, questionId: Id) returns (row: SessionCheckpoint)
      requires Valid() && CheckpointIds(sessionId, checkpointIndex) == {}
      modifies this`sessionCheckpoints, this`nextCheckpointId
      ensures Valid()
      ensures row == SessionCheckpoint(old(nextCheckpointId), sessionId, checkpointIndex, Some(questionId), false, None)
      ensures sessionCheckpoints == old(sessionCheckpoints)[row.id := row]
      ensures nextCheckpointId == old(nextCheckpointId) + 1
      ensures CheckpointIds(sessionId, checkpointIndex) == {row.id}
      ensures AttemptedQuestions(row.id) == {}
    {
      forall k | k in sessionCheckpoints
        ensures sessionCheckpoints[k].sessionId != sessionId || sessionCheckpoints[k].checkpointIndex != checkpointIndex
      {
        assert k !in CheckpointIds(sessionId, checkpointIndex);
      }
      row := SessionCheckpoint(nextCheckpointId, sessionId, checkpointIndex, Some(questionId), false, None);
      sessionCheckpoints := sessionCheckpoints[row.id := row];
      nextCheckpointId := nextCheckpointId + 1;
      SingleCheckpoint(sessionId, checkpointIndex, row.id);
    }

    /**
     * getOrAssignCheckpointQuestion: on the first visit, draw an active
     * question of the category and create the row; on later visits, return
     * the stored row unchanged.
     */
    method GetOrAssignCheckpointQuestion(sessionId: Id, checkpointIndex: int, categoryId: Id)
      returns (r: Option<Assignment>)
      requires Valid()
      modifies this`sessionCheckpoints, this`nextCheckpointId
      ensures Valid()
      ensures r.Some? ==>
        && Presents(r.value)
        && r.value.sessionCheckpoint.sessionId == sessionId
        && r.value.sessionCheckpoint.checkpointIndex == checkpointIndex
        && CheckpointIds(sessionId, checkpointIndex) == {r.value.sessionCheckpoint.id}
        && sessionCheckpoints[r.value.sessionCheckpoint.id] == r.value.sessionCheckpoint
      // a later visit changes nothing and returns the stored row
      ensures old(CheckpointIds(sessionId, checkpointIndex)) != {} ==>
        && sessionCheckpoints == old(sessionCheckpoints)
        && nextCheckpointId == old(nextCheckpointId)
        && (r.Some? ==> r.value.sessionCheckpoint == old(CheckpointRow(sessionId, checkpointIndex)))
        && (r.None? <==>
              var row := old(CheckpointRow(sessionId, checkpointIndex));
              !row.isCompleted && (row.assignedQuestionId.None? || row.assignedQuestionId.value !in catalog.questions))
      // a first visit with an empty pool fails and creates nothing
      ensures old(CheckpointIds(sessionId, checkpointIndex)) == {} && ActivePool(catalog.questions, categoryId) == {} ==>
        && r.None?
        && sessionCheckpoints == old(sessionCheckpoints)
        && nextCheckpointId == old(nextCheckpointId)
      // a first visit with a non-empty pool creates one open row holding an active question of the category
      ensures old(CheckpointIds(sessionId, checkpointIndex)) == {} && ActivePool(catalog.questions, categoryId) != {} ==>
        && r.Some?
        && var row := r.value.sessionCheckpoint;
        && row.id == old(nextCheckpointId)
        && !row.isCompleted && row.completedAt.None?
        && row.assignedQuestionId.Some?
        && row.assignedQuestionId.value in ActivePool(catalog.questions, categoryId)
        && sessionCheckpoints == old(sessionCheckpoints)[row.id := row]
        && nextCheckpointId == old(nextCheckpointId) + 1
        && AttemptedQuestions(row.id) == {}
    {
      if CheckpointIds(sessionId, checkpointIndex) != {} {
        var k :| k in CheckpointIds(sessionId, checkpointIndex);
        SingleCheckpoint(sessionId, checkpointIndex, k);
        r := ShowCheckpoint(sessionCheckpoints[k]);
      } else {
        var pool := ActivePool(catalog.questions, categoryId);
        if pool == {} {
          return None;
        }
        var q :| q in pool;
        var row := InsertCheckpoint(sessionId, checkpointIndex, q);
        r := ShowCheckpoint(row);
      }
    }

    // -------------------------------------------------------------------
    // The writes of submitCheckpointAnswer
    // -------------------------------------------------------------------

    /** `INSERT INTO checkpoint_attempts ...`: one more entry at the end of the log. */
    method RecordAttempt(scpId: Id, questionId: Id, choiceId: Id, isCorrect: bool, now: int)
      requires Valid() && scpId in sessionCheckpoints
      modifies this`attempts, this`nextAttemptId
      ensures Valid()
      ensures attempts == old(attempts) + [CheckpointAttempt(old(nextAttemptId), scpId, questionId, choiceId, isCorrect, now)]
      ensures nextAttemptId == old(nextAttemptId) + 1
      ensures AttemptedQuestions(scpId) == old(AttemptedQuestions(scpId)) + {questionId}
    {
      attempts := attempts + [CheckpointAttempt(nextAttemptId, scpId, questionId, choiceId, isCorrect, now)];
      nextAttemptId := nextAttemptId + 1;
      assert attempts[|attempts| - 1].questionId == questionId;
      assert forall i :: 0 <= i < |attempts| - 1 ==> attempts[i] == old(attempts)[i];
    }

    /** `UPDATE session_checkpoints SET is_completed = true, completed_at = NOW()` */
    method MarkCheckpointCompleted(scpId: Id, now: int)
      requires Valid() && scpId in sessionCheckpoints
      modifies this`sessionCheckpoints
      ensures Valid()
      ensures sessionCheckpoints == old(sessionCheckpoints)[scpId :=
        old(sessionCheckpoints)[scpId].(isCompleted := true, completedAt := Some(now))]
    {
      var row := sessionCheckpoints[scpId].(isCompleted := true, completedAt := Some(now));
      RewriteKeepsKeys(sessionCheckpoints, nextCheckpointId, scpId, row);
      sessionCheckpoints := sessionCheckpoints[scpId := row];
    }

    /** `UPDATE user_sessions SET completed_at = NOW()` */
    method MarkSessionCompleted(sessionId: Id, now: int)
      requires Valid() && sessionId in sessions
      modifies this`sessions
      ensures Valid()
      ensures sessions == old(sessions)[sessionId := old(sessions)[sessionId].(completedAt := Some(now))]
    {
      sessions := sessions[sessionId := sessions[sessionId].(completedAt := Some(now))];
    }

    /**
     * The two `ORDER BY RANDOM() LIMIT 1` queries of the rotation: an
     * unattempted active question of the category, else any active one.
     */
    method PickReplacement(categoryId: Id, attempted: set<Id>) returns (pick: Option<Id>)
      ensures RotationChoice(catalog.questions, categoryId, attempted, pick)
      ensures pick.Some? ==> pick.value in catalog.questions
    {
      var unattempted := UnattemptedPool(catalog.questions, categoryId, attempted);
      if unattempted != {} {
        var q :| q in unattempted;
        return Some(q);
      }
      var pool := ActivePool(catalog.questions, categoryId);
      if pool == {} {
        return None;
      }
      var q :| q in pool;
      return Some(q);
    }

    /**
     * The rotation after a wrong answer: reassign the checkpoint to an
     * unattempted active question of the category, or, when there is none,
     * to any active question of the category; leave it when the pool is empty.
     */
    method RotateQuestion(scpId: Id, categoryId: Id) returns (newQuestion: Option<NewQuestion>)
      requires Valid() && scpId in sessionCheckpoints
      modifies this`sessionCheckpoints
      ensures Valid()
      ensures RotationChoice(catalog.questions, categoryId, AttemptedQuestions(scpId), NewQuestionId(newQuestion))
      ensures newQuestion.None? ==> sessionCheckpoints == old(sessionCheckpoints)
      ensures newQuestion.Some? ==>
        var q := newQuestion.value.question.id;
        && q in catalog.questions
        && newQuestion.value.question == catalog.questions[q].View()
        && ShowsChoicesOf(newQuestion.value.choices, catalog.choices, q)
        && sessionCheckpoints == old(sessionCheckpoints)[scpId :=
             old(sessionCheckpoints)[scpId].(assignedQuestionId := Some(q))]
    {
      var pick := PickReplacement(categoryId, AttemptedQuestions(scpId));
      if pick.None? {
        return None;
      }
      var q := pick.value;
      var row := sessionCheckpoints[scpId].(assignedQuestionId := Some(q));
      RewriteKeepsKeys(sessionCheckpoints, nextCheckpointId, scpId, row);
      sessionCheckpoints := sessionCheckpoints[scpId := row];
      newQuestion := Some(NewQuestion(catalog.questions[q].View(), QuestionChoices(catalog.choices, q)));
    }

    // -------------------------------------------------------------------
    // Answer grading
    // -------------------------------------------------------------------

    /**
     * The checks before anything is written: the row exists, joins to its
     * session and to a tagged category, belongs to the caller, is still open,
     * and the choice belongs to the submitted question. Whether that question
     * is the one assigned to the checkpoint is not checked.
     */
    ghost predicate Admissible(scpId: Id, questionId: Id, choiceId: Id, userId: Id)
      reads this
    {
      && scpId in sessionCheckpoints
      && sessionCheckpoints[scpId].sessionId in sessions
      && catalog.HasTag(sessions[sessionCheckpoints[scpId].sessionId].campaignId, sessionCheckpoints[scpId].checkpointIndex)
      && sessions[sessionCheckpoints[scpId].sessionId].userId == userId
      && !sessionCheckpoints[scpId].isCompleted
      && catalog.ChoiceOf(choiceId, questionId)
    }

    /** The rows the rest of the transaction dereferences; a missing one throws. */
    ghost predicate ReferencesExist(scpId: Id, questionId: Id)
      reads this
    {
      && scpId in sessionCheckpoints
      && sessionCheckpoints[scpId].sessionId in sessions
      && sessions[sessionCheckpoints[scpId].sessionId].campaignId in catalog.campaigns
      && questionId in catalog.questions
      && catalog.HasCorrectChoice(questionId)
    }

    /**
     * The reads of submitCheckpointAnswer before its first write: reject
     * (null) an inadmissible submission, and report the missing row that
     * would make the transaction throw.
     */
    method CheckSubmission(scpId: Id, questionId: Id, choiceId: Id, userId: Id) returns (v: Verdict)
      ensures v.Rejected? <==> !Admissible(scpId, questionId, choiceId, userId)
      ensures v.Broken? <==> Admissible(scpId, questionId, choiceId, userId) && !ReferencesExist(scpId, questionId)
      ensures v.Accepted? ==>
        && scpId in sessionCheckpoints && v.scp == sessionCheckpoints[scpId]
        && v.scp.sessionId in sessions && v.session == sessions[v.scp.sessionId]
        && v.session.campaignId in catalog.campaigns && v.campaign == catalog.campaigns[v.session.campaignId]
        && catalog.TagCategory(v.session.campaignId, v.scp.checkpointIndex, v.categoryId)
        && catalog.IsAnswer(choiceId, questionId, v.isCorrect)
        && catalog.IsAnswer(v.correctChoiceId, questionId, true)
        && questionId in catalog.questions && v.explanation == catalog.questions[questionId].explanation
    {
      if scpId !in sessionCheckpoints || sessionCheckpoints[scpId].sessionId !in sessions {
        return Rejected;
      }
      var scp := sessionCheckpoints[scpId];
      var session := sessions[scp.sessionId];
      if !catalog.HasTag(session.campaignId, scp.checkpointIndex) {
        return Rejected;
      }
      var tag :| tag in catalog.checkpointTokens && catalog.Joins(tag, session.campaignId, scp.checkpointIndex);
      if session.userId != userId || scp.isCompleted || !catalog.ChoiceOf(choiceId, questionId) {
        return Rejected;
      }
      var choice :| choice in catalog.choices && choice.id == choiceId && choice.questionId == questionId;
      // The explanation, the correct choice and the campaign row are dereferenced
      // later in the transaction; when one is missing it throws and rolls back.
      if questionId !in catalog.questions || !catalog.HasCorrectChoice(questionId)
        || session.campaignId !in catalog.campaigns
      {
        return Broken;
      }
      var correct :| correct in catalog.choices && correct.questionId == questionId && correct.isCorrect;
      v := Accepted(scp, session, catalog.campaigns[session.campaignId], tag.categoryId,
        choice.isCorrect, correct.id, catalog.questions[questionId].explanation);
    }

    /**
     * The writes after a correct answer: complete the checkpoint; once the
     * completed count reaches the campaign total, complete the session and
     * issue (or reuse) its redeem token.
     */
    method CompleteCheckpoint(scpId: Id, sessionId: Id, total: int, now: int, freshToken: string)
      returns (isAllComplete: bool, redeemToken: Option<string>)
      requires Valid() && TokenFresh(freshToken)
      requires scpId in sessionCheckpoints && sessionCheckpoints[scpId].sessionId == sessionId && sessionId in sessions
      modifies this`sessionCheckpoints, this`sessions, this`redeemTokens, this`nextRedeemId
      ensures Valid()
      ensures sessionCheckpoints == old(sessionCheckpoints)[scpId :=
        old(sessionCheckpoints)[scpId].(isCompleted := true, completedAt := Some(now))]
      ensures isAllComplete <==> CompletedCount(sessionId) >= total
      ensures isAllComplete ==>
        && sessions == old(sessions)[sessionId := old(sessions)[sessionId].(completedAt := Some(now))]
        && redeemToken.Some?
        && TokenIds(sessionId) != {}
        && (forall k :: k in TokenIds(sessionId) ==> redeemTokens[k].token == redeemToken.value)
        && (old(TokenIds(sessionId)) != {} ==> redeemTokens == old(redeemTokens))
        && (old(TokenIds(sessionId)) == {} ==>
              redeemTokens == old(redeemTokens)[old(nextRedeemId) :=
                RedeemToken(old(nextRedeemId), freshToken, sessionId, ExpiryFrom(now, RedeemTtlDays), false, None, None)])
      ensures !isAllComplete ==>
        sessions == old(sessions) && redeemTokens == old(redeemTokens) && redeemToken.None?
      ensures nextRedeemId == old(nextRedeemId) + (if isAllComplete then 1 else 0)
    {
      MarkCheckpointCompleted(scpId, now);
      isAllComplete := CompletedCount(sessionId) >= total;
      redeemToken := None;
      if isAllComplete {
        MarkSessionCompleted(sessionId, now);
        var row := CreateRedeemToken(sessionId, RedeemTtlDays, now, freshToken);
        redeemToken := Some(row.token);
      }
    }

    /** The fields of the result that echo the checks made before writing. */
    predicate Reports(g: GradeResult, v: Verdict)
      requires v.Accepted? && v.categoryId in catalog.categories
    {
      && g.isCorrect == v.isCorrect
      && g.correctChoiceId == v.correctChoiceId
      && g.explanation == v.explanation
      && g.isCheckpointComplete == v.isCorrect
      && g.checkpointIndex == v.scp.checkpointIndex
      && g.categoryName == catalog.categories[v.categoryId]
    }

    /**
     * An accepted correct answer: log it, complete the checkpoint, and once
     * the completed count reaches the campaign total complete the session and
     * return its redeem token.
     */
    method GradeCorrect(scpId: Id, questionId: Id, choiceId: Id, now: int, freshToken: string, v: Verdict)
      returns (g: GradeResult)
      requires Valid() && TokenFresh(freshToken) && v.Accepted? && v.isCorrect
      requires scpId in sessionCheckpoints && v.scp == sessionCheckpoints[scpId]
      requires v.scp.sessionId in sessions && v.session == sessions[v.scp.sessionId]
      requires v.categoryId in catalog.categories
      modifies this`attempts, this`nextAttemptId, this`sessionCheckpoints, this`sessions, this`redeemTokens, this`nextRedeemId
      ensures Valid() && Reports(g, v)
      ensures attempts == old(attempts) + [CheckpointAttempt(old(nextAttemptId), scpId, questionId, choiceId, true, now)]
      ensures nextAttemptId == old(nextAttemptId) + 1
      ensures nextRedeemId == old(nextRedeemId) + (if g.isAllComplete then 1 else 0)
      ensures g.progress == BuildProgress(v.campaign.totalCheckpoints, RowsOf(v.scp.sessionId))
      ensures sessionCheckpoints == old(sessionCheckpoints)[scpId := v.scp.(isCompleted := true, completedAt := Some(now))]
      ensures g.newQuestion.None?
      ensures g.isAllComplete <==> CompletedCount(v.scp.sessionId) >= v.campaign.totalCheckpoints
      ensures g.isAllComplete ==>
        var sid := v.scp.sessionId;
        && sessions == old(sessions)[sid := v.session.(completedAt := Some(now))]
        && g.progress.completed >= g.progress.total
        && g.redeemToken.Some?
        && TokenIds(sid) != {}
        && (forall k :: k in TokenIds(sid) ==> redeemTokens[k].token == g.redeemToken.value)
        && (old(TokenIds(sid)) != {} ==> redeemTokens == old(redeemTokens))
        && (old(TokenIds(sid)) == {} ==>
              redeemTokens == old(redeemTokens)[old(nextRedeemId) :=
                RedeemToken(old(nextRedeemId), freshToken, sid, ExpiryFrom(now, RedeemTtlDays), false, None, None)])
      ensures !g.isAllComplete ==>
        sessions == old(sessions) && redeemTokens == old(redeemTokens) && g.redeemToken.None?
    {
      RecordAttempt(scpId, questionId, choiceId, true, now);
      var isAllComplete, redeemToken := CompleteCheckpoint(scpId, v.scp.sessionId, v.campaign.totalCheckpoints, now, freshToken);
      var progress := BuildProgress(v.campaign.totalCheckpoints, RowsOf(v.scp.sessionId));
      g := GradeResult(true, v.correctChoiceId, v.explanation, true, isAllComplete,
        v.scp.checkpointIndex, catalog.categories[v.categoryId], redeemToken, None, progress);
    }

    /**
     * An accepted wrong answer: log it and, when the campaign rotates
     * questions, reassign the checkpoint by the rotation policy. Nothing is
     * completed.
     */
    method GradeWrong(scpId: Id, questionId: Id, choiceId: Id, now: int, v: Verdict)
      returns (g: GradeResult)
      requires Valid() && v.Accepted? && !v.isCorrect
      requires scpId in sessionCheckpoints && v.scp == sessionCheckpoints[scpId]
      requires v.categoryId in catalog.categories
      modifies this`attempts, this`nextAttemptId, this`sessionCheckpoints
      ensures Valid() && Reports(g, v)
      ensures attempts == old(attempts) + [CheckpointAttempt(old(nextAttemptId), scpId, questionId, choiceId, false, now)]
      ensures nextAttemptId == old(nextAttemptId) + 1
      ensures AttemptedQuestions(scpId) == old(AttemptedQuestions(scpId)) + {questionId}
      ensures g.progress == BuildProgress(v.campaign.totalCheckpoints, RowsOf(v.scp.sessionId))
      ensures !g.isAllComplete && g.redeemToken.None?
      ensures !v.campaign.retryRotateQuestion ==> sessionCheckpoints == old(sessionCheckpoints) && g.newQuestion.None?
      ensures v.campaign.retryRotateQuestion ==>
        && questionId in AttemptedQuestions(scpId)
        && RotationChoice(catalog.questions, v.categoryId, AttemptedQuestions(scpId), NewQuestionId(g.newQuestion))
        && (g.newQuestion.None? ==> sessionCheckpoints == old(sessionCheckpoints))
        && (g.newQuestion.Some? ==>
              var q := g.newQuestion.value.question.id;
              && g.newQuestion.value.question == catalog.questions[q].View()
              && ShowsChoicesOf(g.newQuestion.value.choices, catalog.choices, q)
              && sessionCheckpoints == old(sessionCheckpoints)[scpId := v.scp.(assignedQuestionId := Some(q))])
    {
      RecordAttempt(scpId, questionId, choiceId, false, now);
      var newQuestion: Option<NewQuestion> := None;
      if v.campaign.retryRotateQuestion {
        newQuestion := RotateQuestion(scpId, v.categoryId);
      }
      var progress := BuildProgress(v.campaign.totalCheckpoints, RowsOf(v.scp.sessionId));
      g := GradeResult(false, v.correctChoiceId, v.explanation, false, false,
        v.scp.checkpointIndex, catalog.categories[v.categoryId], None, newQuestion, progress);
    }

    /** An accepted submission: the grade and the writes that follow it. */
    method GradeAccepted(scpId: Id, questionId: Id, choiceId: Id, now: int, freshToken: string, v: Verdict)
      returns (g: GradeResult)
      requires Valid() && TokenFresh(freshToken) && v.Accepted?
      requires scpId in sessionCheckpoints && v.scp == sessionCheckpoints[scpId] && !v.scp.isCompleted
      requires v.scp.sessionId in sessions && v.session == sessions[v.scp.sessionId]
      requires v.categoryId in catalog.categories
      modifies this`attempts, this`nextAttemptId, this`sessionCheckpoints, this`sessions, this`redeemTokens, this`nextRedeemId
      ensures Valid()
      ensures forall k :: k in old(sessionCheckpoints) && old(sessionCheckpoints)[k].isCompleted ==>
        k in sessionCheckpoints && sessionCheckpoints[k] == old(sessionCheckpoints)[k]
      ensures && Reports(g, v)
              && attempts == old(attempts) + [CheckpointAttempt(old(nextAttemptId), scpId, questionId, choiceId, v.isCorrect, now)]
              && nextAttemptId == old(nextAttemptId) + 1
              && nextRedeemId == old(nextRedeemId) + (if g.isAllComplete then 1 else 0)
              && g.progress == BuildProgress(v.campaign.totalCheckpoints, RowsOf(v.scp.sessionId))
      ensures v.isCorrect ==>
        && sessionCheckpoints == old(sessionCheckpoints)[scpId := v.scp.(isCompleted := true, completedAt := Some(now))]
        && g.newQuestion.None?
        && (g.isAllComplete <==> CompletedCount(v.scp.sessionId) >= v.campaign.totalCheckpoints)
      ensures g.isAllComplete ==>
        var sid := v.scp.sessionId;
        && v.isCorrect
        && sessions == old(sessions)[sid := v.session.(completedAt := Some(now))]
        && g.progress.completed >= g.progress.total
        && g.redeemToken.Some?
        && TokenIds(sid) != {}
        && (forall k :: k in TokenIds(sid) ==> redeemTokens[k].token == g.redeemToken.value)
        && (old(TokenIds(sid)) != {} ==> redeemTokens == old(redeemTokens))
        && (old(TokenIds(sid)) == {} ==>
              redeemTokens == old(redeemTokens)[old(nextRedeemId) :=
                RedeemToken(old(nextRedeemId), freshToken, sid, ExpiryFrom(now, RedeemTtlDays), false, None, None)])
      ensures !g.isAllComplete ==>
        sessions == old(sessions) && redeemTokens == old(redeemTokens) && g.redeemToken.None?
      ensures !v.isCorrect ==>
        && !g.isAllComplete
        && (!v.campaign.retryRotateQuestion ==> sessionCheckpoints == old(sessionCheckpoints) && g.newQuestion.None?)
        && (v.campaign.retryRotateQuestion ==>
              && AttemptedQuestions(scpId) == old(AttemptedQuestions(scpId)) + {questionId}
              && RotationChoice(catalog.questions, v.categoryId, AttemptedQuestions(scpId), NewQuestionId(g.newQuestion))
              && (g.newQuestion.None? ==> sessionCheckpoints == old(sessionCheckpoints))
              && (g.newQuestion.Some? ==>
                    var q := g.newQuestion.value.question.id;
                    && g.newQuestion.value.question == catalog.questions[q].View()
                    && ShowsChoicesOf(g.newQuestion.value.choices, catalog.choices, q)
                    && sessionCheckpoints == old(sessionCheckpoints)[scpId := v.scp.(assignedQuestionId := Some(q))]))
    {
      if v.isCorrect {
        g := GradeCorrect(scpId, questionId, choiceId, now, freshToken, v);
      } else {
        g := GradeWrong(scpId, questionId, choiceId, now, v);
      }
    }

    /**
     * submitCheckpointAnswer: record the attempt, grade it, complete the
     * checkpoint (and, once enough are completed, the session with its
     * redeem token), or rotate the question after a wrong answer.
     * `freshToken` stands for crypto.randomUUID().
     */
    method SubmitCheckpointAnswer(scpId: Id, questionId: Id, choiceId: Id, userId: Id, now: int, freshToken: string)
      returns (r: TxResult<GradeResult>, ghost v: Verdict)
      requires Valid()
      requires TokenFresh(freshToken)
      modifies this`attempts, this`nextAttemptId, this`sessionCheckpoints, this`sessions, this`redeemTokens, this`nextRedeemId
      ensures Valid()
      // all or nothing: a rejection writes nothing; a rollback undoes every row but not
      // the sequence values the attempt insert (and possibly the token insert) drew
      ensures r.Null? ==> unchanged(this)
      ensures r.Threw? ==>
        && attempts == old(attempts) && sessionCheckpoints == old(sessionCheckpoints)
        && sessions == old(sessions) && redeemTokens == old(redeemTokens)
        && nextAttemptId == old(nextAttemptId) + 1
        && old(nextRedeemId) <= nextRedeemId <= old(nextRedeemId) + 1
      ensures r.Null? <==> !old(Admissible(scpId, questionId, choiceId, userId))
      ensures r.Threw? <==> old(Admissible(scpId, questionId, choiceId, userId)) && !old(ReferencesExist(scpId, questionId))
      ensures r.Ok? == v.Accepted?
      // a completed checkpoint stays completed and unchanged
      ensures forall k :: k in old(sessionCheckpoints) && old(sessionCheckpoints)[k].isCompleted ==>
        k in sessionCheckpoints && sessionCheckpoints[k] == old(sessionCheckpoints)[k]
      // what the reads found: the row, its session and campaign, the tag's category, the grade
      ensures r.Ok? ==>
        && v.scp == old(sessionCheckpoints)[scpId]
        && v.session == old(sessions)[v.scp.sessionId]
        && v.campaign == catalog.campaigns[v.session.campaignId]
        && catalog.TagCategory(v.session.campaignId, v.scp.checkpointIndex, v.categoryId)
        && v.categoryId in catalog.categories
        && catalog.IsAnswer(choiceId, questionId, v.isCorrect)
        && catalog.IsAnswer(v.correctChoiceId, questionId, true)
        && v.explanation == catalog.questions[questionId].explanation
      // every accepted submission is logged and graded by the chosen choice's flag
      ensures r.Ok? ==>
        && Reports(r.value, v)
        && attempts == old(attempts) + [CheckpointAttempt(old(nextAttemptId), scpId, questionId, choiceId, v.isCorrect, now)]
        && nextAttemptId == old(nextAttemptId) + 1
        && nextRedeemId == old(nextRedeemId) + (if r.value.isAllComplete then 1 else 0)
        && r.value.progress == BuildProgress(v.campaign.totalCheckpoints, RowsOf(v.scp.sessionId))
      // a correct answer completes the checkpoint; the session completes when the count reaches the total
      ensures r.Ok? && v.isCorrect ==>
        && sessionCheckpoints == old(sessionCheckpoints)[scpId := v.scp.(isCompleted := true, completedAt := Some(now))]
        && r.value.newQuestion.None?
        && (r.value.isAllComplete <==> CompletedCount(v.scp.sessionId) >= v.campaign.totalCheckpoints)
      ensures r.Ok? && r.value.isAllComplete ==>
        var sid := v.scp.sessionId;
        && v.isCorrect
        && sessions == old(sessions)[sid := v.session.(completedAt := Some(now))]
        && r.value.progress.completed >= r.value.progress.total
        && r.value.redeemToken.Some?
        && TokenIds(sid) != {}
        && (forall k :: k in TokenIds(sid) ==> redeemTokens[k].token == r.value.redeemToken.value)
        && (old(TokenIds(sid)) != {} ==> redeemTokens == old(redeemTokens))
        && (old(TokenIds(sid)) == {} ==>
              redeemTokens == old(redeemTokens)[old(nextRedeemId) :=
                RedeemToken(old(nextRedeemId), freshToken, sid, ExpiryFrom(now, RedeemTtlDays), false, None, None)])
      ensures r.Ok? && !r.value.isAllComplete ==>
        sessions == old(sessions) && redeemTokens == old(redeemTokens) && r.value.redeemToken.None?
      // a wrong answer never completes the checkpoint; with rotation on, the question is replaced
      ensures r.Ok? && !v.isCorrect ==>
        && !r.value.isAllComplete
        && (!v.campaign.retryRotateQuestion ==> sessionCheckpoints == old(sessionCheckpoints) && r.value.newQuestion.None?)
        && (v.campaign.retryRotateQuestion ==>
              && AttemptedQuestions(scpId) == old(AttemptedQuestions(scpId)) + {questionId}
              && RotationChoice(catalog.questions, v.categoryId, AttemptedQuestions(scpId), NewQuestionId(r.value.newQuestion))
              && (r.value.newQuestion.None? ==> sessionCheckpoints == old(sessionCheckpoints))
              && (r.value.newQuestion.Some? ==>
                    var q := r.value.newQuestion.value.question.id;
                    && r.value.newQuestion.value.question == catalog.questions[q].View()
                    && ShowsChoicesOf(r.value.newQuestion.value.choices, catalog.choices, q)
                    && sessionCheckpoints == old(sessionCheckpoints)[scpId := v.scp.(assignedQuestionId := Some(q))]))
    {
      var verdict := CheckSubmission(scpId, questionId, choiceId, userId);
      v := verdict;
      if verdict.Rejected? {
        return Null, v;
      }
      if verdict.Broken? {
        // the attempt insert drew its key before the transaction threw
        nextAttemptId := nextAttemptId + 1;
        return Threw, v;
      }
      var g := GradeAccepted(scpId, questionId, choiceId, now, freshToken, verdict);
      r := Ok(g);
    }

    // -------------------------------------------------------------------
    // Progress
    // -------------------------------------------------------------------

    /** getSessionProgress: zeros when the campaign is missing, else the dense projection. */
    function GetSessionProgress(sessionId: Id, campaignId: Id): (p: Progress)
      reads this
      ensures campaignId !in catalog.campaigns ==> p == Progress(0, 0, [])
      ensures campaignId in catalog.campaigns ==>
        && p.total == catalog.campaigns[campaignId].totalCheckpoints
        && p.completed == CompletedCount(sessionId)
        && |p.checkpoints| == (if p.total > 0 then p.total else 0)
        && (forall k :: 0 <= k < |p.checkpoints| ==> p.checkpoints[k].index == k + 1)
        && (forall k :: 0 <= k < |p.checkpoints| ==>
              (p.checkpoints[k].isCompleted <==>
                 exists id :: id in sessionCheckpoints && sessionCheckpoints[id].sessionId == sessionId
                   && sessionCheckpoints[id].checkpointIndex == k + 1 && sessionCheckpoints[id].isCompleted))
    {
      if campaignId !in catalog.campaigns then Progress(0, 0, [])
      else
        var p := BuildProgress(catalog.campaigns[campaignId].totalCheckpoints, RowsOf(sessionId));
        assert forall i :: 1 <= i <= p.total ==>
          (IndexCompleted(RowsOf(sessionId), i) <==>
             exists id :: id in sessionCheckpoints && sessionCheckpoints[id].sessionId == sessionId
               && sessionCheckpoints[id].checkpointIndex == i && sessionCheckpoints[id].isCompleted);
        p
    }

    /**
     * In a store whose rows for the session all carry indices within
     * 1..total, the completed count equals the number of ticked entries.
     */
    lemma ProgressCountsTicks(sessionId: Id, campaignId: Id)
      requires Valid() && campaignId in catalog.campaigns
      requires forall k :: k in sessionCheckpoints && sessionCheckpoints[k].sessionId == sessionId ==>
        1 <= sessionCheckpoints[k].checkpointIndex <= catalog.campaigns[campaignId].totalCheckpoints
      ensures GetSessionProgress(sessionId, campaignId).completed
        == CountTicked(GetSessionProgress(sessionId, campaignId).checkpoints)
    {
      CompletedMatchesTicked(catalog.campaigns[campaignId].totalCheckpoints, RowsOf(sessionId));
    }

    // -------------------------------------------------------------------
    // Redeem tokens
    // -------------------------------------------------------------------

    /** getExistingRedeemToken: the session's token if it is unused and unexpired. */
    method GetExistingRedeemToken(sessionId: Id, now: int) returns (r: Option<RedeemToken>)
      requires Valid()
      ensures r.Some? ==>
        && r.value.id in redeemTokens && redeemTokens[r.value.id] == r.value
        && r.value.sessionId == sessionId && !r.value.isUsed && r.value.expiresAt > now
      ensures r.None? ==>
        forall k :: k in redeemTokens && redeemTokens[k].sessionId == sessionId ==>
          redeemTokens[k].isUsed || redeemTokens[k].expiresAt <= now
    {
      if exists k :: (k in redeemTokens && redeemTokens[k].sessionId == sessionId
                      && !redeemTokens[k].isUsed && redeemTokens[k].expiresAt > now)
      {
        var k :| k in redeemTokens && redeemTokens[k].sessionId == sessionId
          && !redeemTokens[k].isUsed && redeemTokens[k].expiresAt > now;
        r := Some(redeemTokens[k]);
      } else {
        r := None;
      }
    }

    /**
     * createRedeemToken: insert a token for the session, or return the
     * session's existing token when there already is one.
     */
    method CreateRedeemToken(sessionId: Id, ttlDays: int, now: int, freshToken: string) returns (row: RedeemToken)
      requires Valid()
      requires TokenFresh(freshToken)
      modifies this`redeemTokens, this`nextRedeemId
      ensures Valid()
      ensures row.sessionId == sessionId
      ensures row.id in redeemTokens && redeemTokens[row.id] == row
      ensures TokenIds(sessionId) == {row.id}
      // the BIGSERIAL default is drawn before the conflict is detected
      ensures nextRedeemId == old(nextRedeemId) + 1
      ensures old(TokenIds(sessionId)) != {} ==> redeemTokens == old(redeemTokens)
      ensures old(TokenIds(sessionId)) == {} ==>
        && row == RedeemToken(old(nextRedeemId), freshToken, sessionId, ExpiryFrom(now, ttlDays), false, None, None)
        && redeemTokens == old(redeemTokens)[row.id := row]
    {
      if TokenIds(sessionId) != {} {
        var k :| k in TokenIds(sessionId);
        row := redeemTokens[k];
      } else {
        forall k | k in redeemTokens ensures redeemTokens[k].sessionId != sessionId {
          assert k !in TokenIds(sessionId);
        }
        row := RedeemToken(nextRedeemId, freshToken, sessionId, ExpiryFrom(now, ttlDays), false, None, None);
        redeemTokens := redeemTokens[row.id := row];
      }
      nextRedeemId := nextRedeemId + 1;
    }

    /** `WHERE token = $1 AND is_used = false AND expires_at > NOW()` */
    predicate Consumable(k: Id, token: string, now: int)
      reads this`redeemTokens
    {
      k in redeemTokens && redeemTokens[k].token == token && !redeemTokens[k].isUsed && redeemTokens[k].expiresAt > now
    }

    /**
     * `UPDATE redeem_tokens SET is_used = true, used_at = NOW(), kiosk_id = $2`:
     * afterwards no token with that value is unused.
     */
    method MarkRedeemed(k: Id, now: int, kioskId: string)
      requires Valid() && k in redeemTokens
      modifies this`redeemTokens
      ensures Valid()
      ensures redeemTokens == old(redeemTokens)[k :=
        old(redeemTokens)[k].(isUsed := true, usedAt := Some(now), kioskId := Some(kioskId))]
      ensures forall j :: j in redeemTokens && redeemTokens[j].token == old(redeemTokens)[k].token ==>
        redeemTokens[j].isUsed
    {
      var t := redeemTokens[k];
      forall j | j in redeemTokens && redeemTokens[j].token == t.token ensures j == k { }
      redeemTokens := redeemTokens[k := t.(isUsed := true, usedAt := Some(now), kioskId := Some(kioskId))];
    }

    /**
     * validateAndConsumeRedeemToken: mark an unused, unexpired token used,
     * stamped with the time and the kiosk, and report its campaign.
     */
    method ValidateAndConsumeRedeemToken(token: string, kioskId: string, now: int)
      returns (r: TxResult<Redemption>, ghost key: Id)
      requires Valid()
      modifies this`redeemTokens
      ensures Valid()
      ensures !r.Ok? ==> redeemTokens == old(redeemTokens)
      ensures r.Null? <==> forall k :: !old(Consumable(k, token, now))
      // a consumable token rolls back only when its session or campaign row is missing
      ensures r.Threw? ==>
        old(Consumable(key, token, now)) &&
        var t := old(redeemTokens)[key];
        t.sessionId !in sessions || sessions[t.sessionId].campaignId !in catalog.campaigns
      ensures r.Ok? ==>
        old(Consumable(key, token, now)) &&
        var t := old(redeemTokens)[key];
        && redeemTokens == old(redeemTokens)[key := t.(isUsed := true, usedAt := Some(now), kioskId := Some(kioskId))]
        && t.sessionId in sessions
        && sessions[t.sessionId].campaignId in catalog.campaigns
        && r.value == Redemption(t.sessionId,
             catalog.campaigns[sessions[t.sessionId].campaignId].title,
             catalog.campaigns[sessions[t.sessionId].campaignId].slug, now)
      // at most once: afterwards no token with this value can be consumed
      ensures r.Ok? ==> forall k, later :: !Consumable(k, token, later)
    {
      key := 1;
      if !exists k :: k in redeemTokens && Consumable(k, token, now) {
        return Null, key;
      }
      var k :| k in redeemTokens && Consumable(k, token, now);
      key := k;
      var t := redeemTokens[k];
      // The campaign lookup dereferences the session's campaign row; a missing one throws.
      if t.sessionId !in sessions || sessions[t.sessionId].campaignId !in catalog.campaigns {
        return Threw, key;
      }
      var campaign := catalog.campaigns[sessions[t.sessionId].campaignId];
      MarkRedeemed(k, now, kioskId);
      r := Ok(Redemption(t.sessionId, campaign.title, campaign.slug, now));
    }
  }
}
