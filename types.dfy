/**
 * Record shapes of the checkpoint quiz (lib/types.ts), as values.
 *
 * Timestamps are milliseconds on one clock (the database's NOW() and the
 * server's Date.now() are not told apart). Nullable columns are `Option`s.
 */
module QuizTypes {

  datatype Option<+T> = None | Some(value: T)

  /** COALESCE(given, stored): the supplied value if there is one, else the stored one. */
  function Coalesce<T>(given: Option<T>, stored: Option<T>): Option<T> {
    if given.Some? then given else stored
  }

  /** Primary keys are BIGSERIAL values, which start at 1. */
  type Id = x: int | x >= 1 witness 1

  /** line_users */
  datatype LineUser = LineUser(
    id: Id,
    lineUid: string,
    displayName: Option<string>,
    pictureUrl: Option<string>)

  /** quiz_campaigns */
  datatype Campaign = Campaign(
    id: Id,
    slug: string,
    title: string,
    description: Option<string>,
    themeId: Id,
    isActive: bool,
    totalCheckpoints: int,
    retryRotateQuestion: bool,
    sceneBackgroundUrl: string,
    sceneCharacters: seq<Id>)

  /** quiz_questions, with the is_active column the queries filter on */
  datatype Question = Question(
    id: Id,
    categoryId: Id,
    questionText: string,
    explanation: Option<string>,
    isActive: bool)
  {
    /** The columns `SELECT id, question_text, explanation` hands to callers. */
    function View(): QuestionView {
      QuestionView(id, questionText, explanation)
    }
  }

  datatype QuestionView = QuestionView(id: Id, questionText: string, explanation: Option<string>)

  /** quiz_choices as stored (QuizChoiceWithAnswer): carries the answer flag. */
  datatype Choice = Choice(
    id: Id,
    questionId: Id,
    choiceText: string,
    sortOrder: int,
    isCorrect: bool)
  {
    /** QuizChoice: what a player is shown, without the answer flag. */
    function View(): ChoiceView {
      ChoiceView(id, questionId, choiceText, sortOrder)
    }
  }

  datatype ChoiceView = ChoiceView(id: Id, questionId: Id, choiceText: string, sortOrder: int)

  /** checkpoint_tokens: one row per physical tag. */
  datatype CheckpointToken = CheckpointToken(
    id: Id,
    token: string,
    campaignId: Id,
    checkpointIndex: int,
    categoryId: Id,
    expiresAt: int)

  /** user_sessions */
  datatype UserSession = UserSession(
    id: Id,
    campaignId: Id,
    userId: Id,
    createdAt: int,
    completedAt: Option<int>)

  /** session_checkpoints */
  datatype SessionCheckpoint = SessionCheckpoint(
    id: Id,
    sessionId: Id,
    checkpointIndex: int,
    assignedQuestionId: Option<Id>,
    isCompleted: bool,
    completedAt: Option<int>)

  /** checkpoint_attempts: an append-only log. */
  datatype CheckpointAttempt = CheckpointAttempt(
    id: Id,
    sessionCheckpointId: Id,
    questionId: Id,
    choiceId: Id,
    isCorrect: bool,
    attemptedAt: int)

  /** redeem_tokens */
  datatype RedeemToken = RedeemToken(
    id: Id,
    token: string,
    sessionId: Id,
    expiresAt: int,
    isUsed: bool,
    usedAt: Option<int>,
    kioskId: Option<string>)

  datatype CharacterMetadata = CharacterMetadata(
    displayName: string,
    greeting: string,
    correctPhrases: seq<string>,
    wrongPhrases: seq<string>,
    completePhrases: seq<string>)

  /** quiz_characters, as resolved into a QuizCharacter */
  datatype Character = Character(
    id: Id,
    name: string,
    assetIdle: string,
    assetCorrect: string,
    assetWrong: string,
    metadata: CharacterMetadata)
}
