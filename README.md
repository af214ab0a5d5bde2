# quiz-rabbit checkpoint quiz engine in Dafny

This project models the checkpoint quiz engine of quiz-rabbit (`lib/quiz.ts`)
and its theme utilities (`lib/theme.ts`), and proves properties of the model.

In quiz-rabbit a player scans NFC tags placed at the checkpoints of a
campaign. The engine does four things:

- It draws one quiz question per checkpoint from that checkpoint's category.
- It grades answers, and can rotate the question after a wrong answer.
- It counts completed checkpoints. Once the campaign total is reached it
  issues a one-time redeem token.
- A kiosk consumes that token exactly once.

The model is split into four modules:

- `QuizTypes` (`types.dfy`): the record shapes of `lib/types.ts` as
  datatypes. Nullable columns are `Option`s. BIGSERIAL keys use the subtype
  `Id` (integers from 1).
- `Theme` (`theme.dfy`): `DEFAULT_THEME`, `mergeTheme` and
  `themeToCssVars`. A theme object is a `map<string, string>`, and the object
  spread `{ ...DEFAULT_THEME, ...dbConfig }` is the right-biased map union.
- `QuizQueries` (`queries.dfy`): the parts of `lib/quiz.ts` that are pure in
  effect:
  - the choices of a question sorted by `sort_order`;
  - the question pools and the rotation policy;
  - the dense progress projection;
  - the order-preserving resolution of scene characters.
- `QuizStore` (`store.dfy`): a class `Store` holding the tables the engine
  writes, as maps and a sequence:
  - users, sessions and session checkpoints (maps);
  - the attempt log (a sequence);
  - redeem tokens (a map);
  - one BIGSERIAL counter per table.

  Campaigns, categories, questions, choices and checkpoint tags are read-only
  (`catalog`). `Store.Valid()` states the primary keys and the unique
  constraints: one user per `line_uid`, one session per (user, campaign), one
  row per (session, checkpoint index), one redeem token per session, and
  distinct token strings. Every attempt names a checkpoint key already
  issued.

Each exported function of `lib/quiz.ts` that writes or reads the tables
`Store` holds is a method of `Store`, with one exception: `getSessionProgress`
is two separate reads, so it is the function `GetSessionProgress` over the
current state. The two campaign loaders, `getCampaignWithConfig` and
`getCampaignBySlug` (lib/quiz.ts:43-131), are not modelled apart from their
scene-character ordering, which is `QuizQueries.ResolveSceneCharacters`.

- Four functions run inside `withTransaction` (lib/db.ts:56-71):
  `getOrCreateUserSession`, `getOrAssignCheckpointQuestion`,
  `submitCheckpointAnswer` and `validateAndConsumeRedeemToken`.
- The others are single statements: `findOrCreateUser` and
  `createRedeemToken` (one upsert each), and `validateCheckpointToken` and
  `getExistingRedeemToken` (one query each).

The two transactions that can throw on a missing row return a `TxResult`:
`SubmitCheckpointAnswer` and `ValidateAndConsumeRedeemToken`. The result is
one of:

- `Ok(value)`: the writes are committed.
- `Null`: the function returned `null`, and nothing was written.
- `Threw`: the transaction dereferenced a missing row, so it threw and rolled
  back. No row was written. A BIGSERIAL value drawn by an insert before the
  throw stays drawn, because PostgreSQL sequences do not roll back.

For each of these two methods the contract states which inputs lead to
each of the three outcomes. `GetOrAssignCheckpointQuestion` returns
an `Option`, where `None` is its `null`; it has no path that throws.
`GetOrCreateUserSession`, `FindOrCreateUser` and `CreateRedeemToken` always
return a row.

The database clock (`NOW()`) and `Date.now()` are a single `now` parameter in
milliseconds. `crypto.randomUUID()` is a `freshToken` parameter that must
differ from every stored token. `ORDER BY RANDOM() LIMIT 1` is a
nondeterministic pick (`:|`) from the eligible set, so every contract holds
for every possible pick.

## Model

| member | source | states |
|---|---|---|
| `Theme.MergeTheme` | lib/theme.ts:29-31 | The result carries every theme field. Each key given in the stored config keeps the stored value. Each theme field the config lacks takes the default. No other keys appear. |
| `Theme.MergeEmptyIsDefault` | lib/theme.ts:12-31 | Merging an empty config yields exactly `DEFAULT_THEME`. |
| `Theme.MergeCompleteIsIdentity` | lib/theme.ts:29-31 | Merging a config that already has all thirteen fields returns it unchanged. |
| `Theme.MergeIdempotent` | lib/theme.ts:29-31 | Merging twice equals merging once. |
| `Theme.CssVarNamesDistinct` | lib/theme.ts:35-51 | There are thirteen CSS properties. Their names are pairwise distinct and all start with `--qr-`. Each one carries a theme field. |
| `Theme.ThemeToCssVars` | lib/theme.ts:35-51 | The result has exactly the thirteen `--qr-*` keys. Each key maps to the value of its own theme field (e.g. `--qr-btn` to `buttonColor`). The renaming is written once, as the table `CssVarFields`. |
| `Theme.Rename` | lib/theme.ts:35-51 | Renaming by a table of (property, field) pairs yields exactly the properties the table names. |
| `Theme.RenameCarries` | lib/theme.ts:35-51 | When the property names of the table are distinct, each property carries the value of its own field. |
| `QuizQueries.ChoicesOf` | lib/quiz.ts:251-259 | The choices returned are exactly the views of the choices whose `question_id` matches. None is dropped and none is invented. |
| `QuizQueries.InsertBySortOrder` | lib/quiz.ts:251-259 | Inserting into a list sorted by `sort_order` keeps it sorted. The contents are the old contents plus the new element. |
| `QuizQueries.ConsSorted` | lib/quiz.ts:251-259 | An element no larger than the head of a sorted list can go in front and the list stays sorted. |
| `QuizQueries.InsertBehind` | lib/quiz.ts:251-259 | The head of a sorted list stays in front when a larger element is inserted into its tail. The result holds the old contents plus the new element. |
| `QuizQueries.OrderBySortOrder` | lib/quiz.ts:251-259 | `ORDER BY sort_order` returns a sorted permutation of its input. |
| `QuizQueries.QuestionChoices` | lib/quiz.ts:251-259 | The choices shown for a question are a `sort_order`-sorted permutation of exactly that question's choices, without the answer flag. |
| `QuizQueries.ActivePool` | lib/quiz.ts:207-216 | The pool a question is drawn from: exactly the questions of the category that are active. |
| `QuizQueries.UnattemptedPool` | lib/quiz.ts:413-424 | Exactly the active questions of the category that are not among the attempted ones (`id != ALL(...)`). It is part of the active pool. |
| `QuizQueries.RotationChoice` | lib/quiz.ts:413-472 | The rotation policy holds of a pick iff three things hold. The pick is none only when the category has no active question. A pick is an active question of the category. An already attempted question is picked only when every active question has been attempted. |
| `QuizQueries.RotationChoicesFormRun` | lib/quiz.ts:395-474 | Questions picked one after another by the rotation policy, each with every earlier one attempted, are all active questions of the category. None repeats an earlier one while unattempted questions remain. |
| `QuizQueries.RunAppend` | lib/quiz.ts:413-472 | A run stays a run when the next question is from the pool, and new while the pool is not used up. |
| `QuizQueries.RotationStepExtendsRun` | lib/quiz.ts:403-472 | One wrong answer extends a run by the question the policy picks next. This holds when the answer names the question currently shown (the last of the run) and the attempted set before it is exactly the earlier questions of the run. `SubmitCheckpointAnswer` supplies the two other premises: the attempted set grows by exactly the answered question, and the new question follows `RotationChoice` over it. |
| `QuizQueries.RotationNoRepeat` | lib/quiz.ts:403-470 | In such a run, no question repeats until as many questions as the pool holds have been shown. |
| `QuizQueries.StatusesFrom` | lib/quiz.ts:522-527 | The status list covers each index from `first` to `total` once, in order. An entry is completed iff a completed row exists for its index, so an unvisited index reports false. |
| `QuizQueries.BuildProgress` | lib/quiz.ts:497-530 | `total` is the campaign total and `completed` counts the completed rows. The list has length `total` (0 if not positive). Entry k has index k+1 and is ticked iff a completed row exists at that index. |
| `QuizQueries.CompletedMatchesTicked` | lib/quiz.ts:519-529 | When every row has an index in 1..total and indices are unique, `completed` equals the number of ticked entries. |
| `QuizQueries.FindCharacter` | lib/quiz.ts:91-93 | `chars.find(c => c.id === cid)` returns a character with that id if one exists, and nothing only when none has it. |
| `QuizQueries.ResolveKeepsOrder` | lib/quiz.ts:91-101 | The resolved characters are those with known ids, in the order of `scene_characters`. Unknown ids are dropped. Every resolved character comes from the loaded rows. |
| `QuizQueries.AllKnownResolveFully` | lib/quiz.ts:91-101 | When every id is known, the resolved list has one character per id, in the same order. |
| `QuizQueries.ResolveSceneCharacters` | lib/quiz.ts:91-101 | At most one character per configured id. Every one is a loaded row whose id is among the configured ids. |
| `QuizQueries.ExpiryFrom` | lib/quiz.ts:382 | A redeem token expires a whole number of days after `now`, exactly `ttlDays` days (`7 * 24 * 60 * 60 * 1000` ms per day). With a positive lifetime it expires after `now`. |
| `QuizStore.Store.FindOrCreateUser` | lib/quiz.ts:21-39 | After the upsert exactly one user has the `line_uid`. An existing row keeps its id and keeps any stored name or picture that was not supplied (COALESCE). A new row takes the next id and the given values. No other user changes. The `line_users` sequence advances by one on both paths, since the key default is drawn before the conflict is found. |
| `QuizStore.Store.ValidateCheckpointToken` | lib/quiz.ts:135-147 | A tag is returned only if it has this token, has not expired (`expires_at > now`) and joins to a category, together with that category's name. `null` only if no such tag exists. |
| `QuizStore.Store.GetOrCreateUserSession` | lib/quiz.ts:151-181 | Afterwards exactly one session exists for (user, campaign), and it is returned with those ids. If one existed nothing changes, so a second call returns the same session. Otherwise one row is created with `completed_at` null. |
| `QuizStore.Store.ShowCheckpoint` | lib/quiz.ts:233-259 | A completed row shows no question and no choices. An open row shows its assigned question and exactly that question's choices sorted by `sort_order`. `null` iff the row is open and has no assigned question, or that question is missing. |
| `QuizStore.Store.SingleCheckpoint` | lib/quiz.ts:196-204 | Under the unique (session, index) constraint, a stored row is the only one for its key. |
| `QuizStore.Store.InsertCheckpoint` | lib/quiz.ts:205-230 | The first visit inserts one open row with the drawn question and the next id. Afterwards it is the only row for (session, index), and no attempt in the log names it yet. |
| `QuizStore.Store.GetOrAssignCheckpointQuestion` | lib/quiz.ts:185-263 | First visit: an active question of the category is assigned in a new open row. If the pool is empty the result is `null` and no row is created. A new row has no attempts in the log, so the rotation starts with nothing attempted. Later visits change nothing and return the stored row as `ShowCheckpoint` presents it. |
| `QuizStore.Store.AttemptedQuestions` | lib/quiz.ts:405-411 | The attempted questions of a checkpoint are exactly the question ids of its entries in the attempt log. |
| `QuizStore.Store.CompletedCount` | lib/quiz.ts:363-369 | Under the primary key, `COUNT(*)` equals the number of the session's completed rows, counted by key. |
| `QuizStore.Store.RecordAttempt` | lib/quiz.ts:316-323 | The attempt names an existing checkpoint row, as the foreign key demands. The attempt log grows by exactly one entry at its end, recording the submission and its grade. The checkpoint's set of attempted questions gains exactly the submitted question. |
| `QuizStore.Store.MarkCheckpointCompleted` | lib/quiz.ts:345-352 | Only the given row changes: `is_completed` becomes true and `completed_at` is now. |
| `QuizStore.Store.MarkSessionCompleted` | lib/quiz.ts:375-379 | Only the given session changes, and its `completed_at` is now. |
| `QuizStore.Store.PickReplacement` | lib/quiz.ts:413-453 | The pick follows the rotation policy for the given attempted set: an unattempted active question of the category, else any active one, else none. A pick is an existing question. |
| `QuizStore.Store.RotateQuestion` | lib/quiz.ts:395-474 | The new question follows the rotation policy, with attempted questions taken from the log. It is an unattempted active question of the category, else any active one, else none. Only the checkpoint's `assigned_question_id` changes, and the choices of the new question are returned sorted. |
| `QuizStore.Store.CheckSubmission` | lib/quiz.ts:286-339 | A submission is rejected iff the checkpoint row is missing, its session or tag category does not join, it belongs to another user, it is completed, or the choice is not of the submitted question. An admissible one throws iff the question, its correct choice or the campaign is missing. |
| `QuizStore.Store.CompleteCheckpoint` | lib/quiz.ts:343-392 | A correct answer completes the checkpoint. The session completes iff the completed count is at least the total (`>=`). In that case the session's one redeem token is returned: the existing one, or a new one expiring 7 days from now. |
| `QuizStore.Store.GradeCorrect` | lib/quiz.ts:316-392 | A correct answer is logged, the checkpoint is completed, and the session is completed with its token exactly when the completed count reaches the total. No question is rotated. |
| `QuizStore.Store.GradeWrong` | lib/quiz.ts:393-474 | A wrong answer is logged and completes nothing. The checkpoint's attempted set grows by exactly the answered question. With rotation off the assignment is unchanged. With it on, the checkpoint is reassigned by the rotation policy over that attempted set. Sessions and redeem tokens are untouched. |
| `QuizStore.Store.GradeAccepted` | lib/quiz.ts:316-491 | An accepted submission returns the grade, the correct choice, the explanation, the index and the category name of its checks. It logs one attempt and reports the progress of the updated rows. It completes the checkpoint only on a correct answer and never changes a completed checkpoint. |
| `QuizStore.Store.SubmitCheckpointAnswer` | lib/quiz.ts:267-493 | The result is `null` with nothing changed exactly for rejected submissions. It is a rollback exactly for missing rows: no row changes, and the attempt sequence has advanced by one. Otherwise one attempt graded by the chosen choice's flag is appended and `isCheckpointComplete` equals `isCorrect`. A correct answer completes the checkpoint and may complete the session and issue the token. A wrong one never completes anything, adds exactly the answered question to the attempted set, and rotates per the campaign flag. A completed checkpoint never changes. Users and the user, session and checkpoint sequences are never touched. The returned progress is the projection of the updated rows. |
| `QuizStore.Store.GetSessionProgress` | lib/quiz.ts:532-561 | A missing campaign gives `{0, 0, []}`. Otherwise: the campaign total, the session's completed-row count, and one entry per index 1..total, ticked iff the session has a completed row at that index. |
| `QuizStore.Store.ProgressCountsTicks` | lib/quiz.ts:551-558 | For a session whose rows carry indices within 1..total, the completed count equals the number of ticked entries. |
| `QuizStore.Store.GetExistingRedeemToken` | lib/quiz.ts:565-573 | A stored token of the session is returned only if it is unused and unexpired. `null` only when every token of the session is used or expired. |
| `QuizStore.Store.CreateRedeemToken` | lib/quiz.ts:575-592 | Afterwards the session has exactly one token, and it is returned. An existing token is returned unchanged (ON CONFLICT), so issuing twice yields the same token. Otherwise one row is inserted with the fresh token, expiring `ttlDays` days from now. The `redeem_tokens` sequence advances by one on both paths. |
| `QuizStore.Store.MarkRedeemed` | lib/quiz.ts:599-607 | Only the given token changes, to used with `used_at` and `kiosk_id` set. Afterwards every token with that value is used. |
| `QuizStore.Store.ValidateAndConsumeRedeemToken` | lib/quiz.ts:594-629 | The result is `null` with nothing changed iff no token with this value is unused and unexpired. A consumable token rolls back only when its session or campaign row is missing, and succeeds whenever both exist. On success only that token changes, to used with `used_at` and `kiosk_id` set, and the campaign title and slug are returned. After a success no token with this value can be consumed again, so a second consume returns `null`. |

## Left out

- lib/liff.ts (LIFF id-token verification through `jose` and a JWKS fetch) is not part of this model. The verified LINE user id, name and picture are plain inputs to `FindOrCreateUser`.
- Connection handling in lib/db.ts (pool, `BEGIN`/`COMMIT`/`ROLLBACK`, client release) is not modelled. Only its all-or-nothing effect is: through `TxResult`, and through contracts that leave every row unchanged on a `null` return or a throw.
- Concurrency is not modelled: row locks (`FOR UPDATE`) and races between `ON CONFLICT` inserts. Each operation is one atomic step, so a double submit or double redeem becomes two sequential calls.
- The distribution of `ORDER BY RANDOM()` and the content of UUIDs are not modelled. Only membership of the pick in the eligible set and freshness of the token are.
- One clock stands for both `NOW()` in PostgreSQL and `Date.now()` in the server, so a redeem token expires exactly 7 × 86 400 000 ms after `now`. The conversion through `toISOString()` and `timestamptz` is not modelled.
- The campaign-loading SQL of `getCampaignWithConfig` and `getCampaignBySlug` (lib/quiz.ts:43-131) is not modelled, apart from the scene-character ordering (lib/quiz.ts:91-101).
- API routes, React components and pages are outside the engine. This includes the scan route's composition of `getSessionProgress` and `getExistingRedeemToken`.
- Foreign keys between the tables are not relied on. A missing referenced row is modelled as the source handles it: a join that drops the row (`null`), or a dereference that throws (`Threw`).
- QuizStore.Store.SubmitCheckpointAnswer: performs its checks for a missing question, correct choice or campaign before writing anything. The source performs them after some writes, but it then throws and rolls back, so the committed state is the same.
- QuizQueries.StatusesFrom: reads a completed row at an index as "some row at that index is completed", where the source takes the first row at that index. The two agree because (session_id, checkpoint_index) is unique, which `Store.Valid()` states.
- Ids are typed `Id` (at least 1), the range of the BIGSERIAL keys. A non-positive id would match no row; such calls are not modelled (the answer route already rejects a missing or zero id, app/api/answer/route.ts:17).
- The engine does not check that the submitted `questionId` is the one assigned to the checkpoint, and neither does the model. `Admissible` only requires that the choice belongs to the submitted question.
- QuizQueries.RotationNoRepeat: holds of the questions actually shown at a checkpoint only while every wrong answer names the question currently assigned there, which is the premise of `RotationStepExtendsRun`. The attempted set is built from the submitted `questionId`s (lib/quiz.ts:405-411), so an answer naming another question breaks it. Example: category 7 has the active questions A and B, A is shown, and the wrong answer names question Z of another category. Then the attempted set is {Z}, `RotationChoice` allows A again, and A repeats while B was never shown.
- QuizStore.Store.SubmitCheckpointAnswer: on a rollback it promises only that the `redeem_tokens` sequence advanced by at most one. It does not say whether the token insert ran before the throw; that happens only for a correct, completing answer whose question row is missing.
- BIGSERIAL sequences are modelled as one counter per table that only grows, so keys can have gaps. The gaps come from upserts that hit their conflict and from inserts rolled back by a throw.
