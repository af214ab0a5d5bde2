/**
 * The parts of lib/quiz.ts whose result depends only on their inputs:
 * the ordered choice list of a question, the pools a question is drawn
 * from, the progress projection and the scene-character resolution.
 */
module QuizQueries {
  import opened QuizTypes

  // ---------------------------------------------------------------------
  // Choices of a question, `ORDER BY sort_order`
  // ---------------------------------------------------------------------

  /** `SELECT ... FROM quiz_choices WHERE question_id = $1`, in table order, without the answer flag. */
  function ChoicesOf(choices: seq<Choice>, questionId: Id): (r: seq<ChoiceView>)
    ensures |r| <= |choices|
    ensures forall v :: v in r ==> v.questionId == questionId
    ensures forall c :: c in choices && c.questionId == questionId ==> c.View() in r
    ensures forall v :: v in r ==> exists c :: c in choices && c.View() == v
  {
    if choices == [] then []
    else if choices[0].questionId == questionId then [choices[0].View()] + ChoicesOf(choices[1..], questionId)
    else ChoicesOf(choices[1..], questionId)
  }

  predicate SortedBySortOrder(s: seq<ChoiceView>) {
    forall i, j :: 0 <= i < j < |s| ==> s[i].sortOrder <= s[j].sortOrder
  }

  function InsertBySortOrder(v: ChoiceView, s: seq<ChoiceView>): (r: seq<ChoiceView>)
    requires SortedBySortOrder(s)
    ensures SortedBySortOrder(r)
    ensures multiset(r) == multiset(s) + multiset{v}
  {
    if s == [] || v.sortOrder <= s[0].sortOrder then
      ConsSorted(v, s);
      [v] + s
    else
      var rest := InsertBySortOrder(v, s[1..]);
      InsertBehind(v, s, rest);
      [s[0]] + rest
  }

  /** An element no larger than the head of a sorted list goes in front of it. */
  lemma ConsSorted(x: ChoiceView, r: seq<ChoiceView>)
    requires SortedBySortOrder(r) && (r == [] || x.sortOrder <= r[0].sortOrder)
    ensures SortedBySortOrder([x] + r)
  {
    var xr := [x] + r;
    forall i, j | 0 <= i < j < |xr| ensures xr[i].sortOrder <= xr[j].sortOrder {
      assert xr[j] == r[j - 1];
      if i > 0 {
        assert xr[i] == r[i - 1];
      }
    }
  }

  /** The head of a sorted list stays in front of the tail with a larger element inserted. */
  lemma InsertBehind(v: ChoiceView, s: seq<ChoiceView>, rest: seq<ChoiceView>)
    requires SortedBySortOrder(s) && s != [] && s[0].sortOrder < v.sortOrder
    requires SortedBySortOrder(rest) && multiset(rest) == multiset(s[1..]) + multiset{v}
    ensures SortedBySortOrder([s[0]] + rest)
    ensures multiset([s[0]] + rest) == multiset(s) + multiset{v}
  {
    assert s == [s[0]] + s[1..];
    if rest != [] {
      assert rest[0] in multiset(rest);
    }
    ConsSorted(s[0], rest);
  }

  /** `ORDER BY sort_order`: a sorted rearrangement of the rows (ties in no promised order). */
  function OrderBySortOrder(s: seq<ChoiceView>): (r: seq<ChoiceView>)
    ensures SortedBySortOrder(r)
    ensures multiset(r) == multiset(s)
  {
    if s == [] then []
    else
      assert s == [s[0]] + s[1..];
      InsertBySortOrder(s[0], OrderBySortOrder(s[1..]))
  }

  /** What a player is shown for a question: its choices, sorted, a permutation of the stored rows. */
  predicate ShowsChoicesOf(shown: seq<ChoiceView>, choices: seq<Choice>, questionId: Id) {
    SortedBySortOrder(shown) && multiset(shown) == multiset(ChoicesOf(choices, questionId))
  }

  /** The choice list lib/quiz.ts hands out for a question. */
  function QuestionChoices(choices: seq<Choice>, questionId: Id): (r: seq<ChoiceView>)
    ensures ShowsChoicesOf(r, choices, questionId)
    ensures forall v :: v in r ==> v.questionId == questionId
    ensures forall c :: c in choices && c.questionId == questionId ==> c.View() in r
  {
    var r := OrderBySortOrder(ChoicesOf(choices, questionId));
    assert forall v :: v in r <==> v in ChoicesOf(choices, questionId) by {
      forall v ensures v in r <==> v in ChoicesOf(choices, questionId) {
        assert v in r <==> v in multiset(r);
      }
    }
    r
  }

  // ---------------------------------------------------------------------
  // Question pools (`ORDER BY RANDOM() LIMIT 1` picks one member)
  // ---------------------------------------------------------------------

  /** `WHERE category_id = $1 AND is_active = true` */
  function ActivePool(questions: map<Id, Question>, categoryId: Id): (pool: set<Id>)
    ensures forall k :: k in pool <==> k in questions && questions[k].categoryId == categoryId && questions[k].isActive
  {
    set k | k in questions && questions[k].categoryId == categoryId && questions[k].isActive
  }

  /** `... AND id != ALL($2)`: the active questions of the category not yet attempted. */
  function UnattemptedPool(questions: map<Id, Question>, categoryId: Id, attempted: set<Id>): (pool: set<Id>)
    ensures pool <= ActivePool(questions, categoryId)
    ensures forall k :: k in pool <==>
      k in questions && questions[k].categoryId == categoryId && questions[k].isActive && k !in attempted
  {
    ActivePool(questions, categoryId) - attempted
  }

  /**
   * The rotation policy after a wrong answer: an unattempted active question
   * of the category if there is one, else any active question of the category
   * (cycle back), else no replacement.
   */
  predicate RotationChoice(questions: map<Id, Question>, categoryId: Id, attempted: set<Id>, chosen: Option<Id>): (ok: bool)
    // no replacement only for an empty pool; an attempted question only once every active one is
    ensures ok <==>
      && (chosen.None? <==> ActivePool(questions, categoryId) == {})
      && (chosen.Some? ==> chosen.value in ActivePool(questions, categoryId))
      && (chosen.Some? && chosen.value in attempted ==> ActivePool(questions, categoryId) <= attempted)
  {
    if UnattemptedPool(questions, categoryId, attempted) != {} then
      chosen.Some? && chosen.value in UnattemptedPool(questions, categoryId, attempted)
    else if ActivePool(questions, categoryId) != {} then
      chosen.Some? && chosen.value in ActivePool(questions, categoryId)
    else
      chosen.None?
  }

  function Elems(s: seq<Id>): set<Id> {
    set x | x in s
  }

  lemma {:induction false} ElemsBound(s: seq<Id>)
    ensures |Elems(s)| <= |s|
  {
    if s != [] {
      ElemsBound(s[..|s| - 1]);
      assert Elems(s) == Elems(s[..|s| - 1]) + {s[|s| - 1]};
    }
  }

  lemma {:induction false} SubsetCard(a: set<Id>, b: set<Id>)
    requires a <= b
    ensures |a| <= |b|
  {
    if a != {} {
      var x :| x in a;
      SubsetCard(a - {x}, b - {x});
    }
  }

  /**
   * The questions shown at one checkpoint to a player who answers each shown
   * question wrongly: the first from the pool, each later one chosen by the
   * rotation policy with every earlier shown question attempted.
   */
  predicate RotationRun(pool: set<Id>, shown: seq<Id>) {
    forall i :: 0 <= i < |shown| ==> RunStep(pool, shown, i)
  }

  /** The i-th shown question is from the pool, and new while the pool is not used up. */
  predicate RunStep(pool: set<Id>, shown: seq<Id>, i: int)
    requires 0 <= i < |shown|
  {
    shown[i] in pool && (pool - Elems(shown[..i]) != {} ==> shown[i] !in Elems(shown[..i]))
  }

  /**
   * Questions picked one after another by the rotation policy, each with all
   * earlier ones attempted, form a rotation run over the category's pool.
   */
  lemma RotationChoicesFormRun(questions: map<Id, Question>, categoryId: Id, shown: seq<Id>)
    requires forall i :: 0 <= i < |shown| ==> RotationChoice(questions, categoryId, Elems(shown[..i]), Some(shown[i]))
    ensures RotationRun(ActivePool(questions, categoryId), shown)
  {
  }

  lemma ElemsSnoc(s: seq<Id>, x: Id)
    ensures Elems(s + [x]) == Elems(s) + {x}
  {
  }

  /** The policy's pick is an active question, unattempted while some active one is. */
  lemma PolicyPick(questions: map<Id, Question>, categoryId: Id, attempted: set<Id>, next: Id)
    requires RotationChoice(questions, categoryId, attempted, Some(next))
    ensures next in ActivePool(questions, categoryId)
    ensures ActivePool(questions, categoryId) - attempted != {} ==> next !in attempted
  {
  }

  /** A run stays a run when the next question is from the pool and new while the pool is not used up. */
  lemma RunAppend(pool: set<Id>, shown: seq<Id>, next: Id)
    requires RotationRun(pool, shown)
    requires next in pool && (pool - Elems(shown) != {} ==> next !in Elems(shown))
    ensures RotationRun(pool, shown + [next])
  {
    var run := shown + [next];
    forall i | 0 <= i < |run| ensures RunStep(pool, run, i) {
      if i < |shown| {
        assert RunStep(pool, shown, i);
        assert run[..i] == shown[..i] && run[i] == shown[i];
      } else {
        assert run[..i] == shown;
      }
    }
  }

  /**
   * One wrong answer at a checkpoint keeps a run going, provided the answer
   * names the question currently shown (the last of the run) and the earlier
   * shown questions are exactly the ones attempted before it: the question
   * the policy picks over the attempted set after this answer extends the run.
   */
  lemma {:induction false} RotationStepExtendsRun(questions: map<Id, Question>, categoryId: Id, shown: seq<Id>,
                                                  before: set<Id>, answered: Id, next: Id)
    requires RotationRun(ActivePool(questions, categoryId), shown)
    requires |shown| > 0 && answered == shown[|shown| - 1]
    requires before == Elems(shown[..|shown| - 1])
    requires RotationChoice(questions, categoryId, before + {answered}, Some(next))
    ensures RotationRun(ActivePool(questions, categoryId), shown + [next])
  {
    var pool := ActivePool(questions, categoryId);
    ElemsSnoc(shown[..|shown| - 1], answered);
    assert shown[..|shown| - 1] + [answered] == shown;
    PolicyPick(questions, categoryId, Elems(shown), next);
    RunAppend(pool, shown, next);
  }

  /** Rotation never repeats a question until the pool is exhausted. */
  lemma {:induction false} RotationNoRepeat(pool: set<Id>, shown: seq<Id>)
    requires RotationRun(pool, shown)
    requires |shown| <= |pool|
    ensures forall i, j :: 0 <= i < j < |shown| ==> shown[i] != shown[j]
  {
    forall i, j | 0 <= i < j < |shown| ensures shown[i] != shown[j] {
      assert RunStep(pool, shown, j);
      ElemsBound(shown[..j]);
      if pool - Elems(shown[..j]) == {} {
        assert pool <= Elems(shown[..j]) by {
          forall x | x in pool ensures x in Elems(shown[..j]) {
            assert x !in pool - Elems(shown[..j]);
          }
        }
        SubsetCard(pool, Elems(shown[..j]));
        assert false;
      }
      assert shown[i] == shown[..j][i];
    }
  }

  // ---------------------------------------------------------------------
  // Progress projection (getSessionProgressInTx / getSessionProgress)
  // ---------------------------------------------------------------------

  datatype CheckpointStatus = CheckpointStatus(index: int, isCompleted: bool)

  datatype Progress = Progress(completed: nat, total: int, checkpoints: seq<CheckpointStatus>)

  /** `checkpoints.find(c => c.checkpoint_index === i)?.is_completed ?? false` */
  predicate IndexCompleted(rows: set<SessionCheckpoint>, i: int) {
    exists r :: r in rows && r.checkpointIndex == i && r.isCompleted
  }

  function CompletedRows(rows: set<SessionCheckpoint>): set<SessionCheckpoint> {
    set r | r in rows && r.isCompleted
  }

  /** The `for (let i = first; i <= total; i++)` loop that pushes one status per index. */
  function StatusesFrom(first: int, total: int, rows: set<SessionCheckpoint>): (s: seq<CheckpointStatus>)
    ensures |s| == if first <= total then total - first + 1 else 0
    ensures forall k :: 0 <= k < |s| ==> s[k].index == first + k
    ensures forall k :: 0 <= k < |s| ==> (s[k].isCompleted <==> IndexCompleted(rows, first + k))
    decreases if first <= total then total - first + 1 else 0
  {
    if first > total then []
    else [CheckpointStatus(first, IndexCompleted(rows, first))] + StatusesFrom(first + 1, total, rows)
  }

  /** The projection: the completed rows counted, and a dense status list for 1..total. */
  function BuildProgress(total: int, rows: set<SessionCheckpoint>): (p: Progress)
    ensures p.total == total
    ensures p.completed == |CompletedRows(rows)|
    ensures |p.checkpoints| == if total > 0 then total else 0
    ensures forall k :: 0 <= k < |p.checkpoints| ==> p.checkpoints[k].index == k + 1
    ensures forall k :: 0 <= k < |p.checkpoints| ==> (p.checkpoints[k].isCompleted <==> IndexCompleted(rows, k + 1))
  {
    Progress(|CompletedRows(rows)|, total, StatusesFrom(1, total, rows))
  }

  function CountTicked(s: seq<CheckpointStatus>): nat {
    if s == [] then 0 else (if s[0].isCompleted then 1 else 0) + CountTicked(s[1..])
  }

  /** Rows of one session: at most one per index (the unique key), each index within 1..total. */
  predicate RowsWithin(total: int, rows: set<SessionCheckpoint>) {
    && (forall r :: r in rows ==> 1 <= r.checkpointIndex <= total)
    && (forall r1, r2 :: r1 in rows && r2 in rows && r1.checkpointIndex == r2.checkpointIndex ==> r1 == r2)
  }

  function CompletedFrom(rows: set<SessionCheckpoint>, first: int): set<SessionCheckpoint> {
    set r | r in rows && r.isCompleted && r.checkpointIndex >= first
  }

  function CompletedAt(rows: set<SessionCheckpoint>, i: int): set<SessionCheckpoint> {
    set r | r in rows && r.isCompleted && r.checkpointIndex == i
  }

  lemma SplitCompletedFrom(rows: set<SessionCheckpoint>, first: int)
    ensures |CompletedFrom(rows, first)| == |CompletedFrom(rows, first + 1)| + |CompletedAt(rows, first)|
  {
    var later, here := CompletedFrom(rows, first + 1), CompletedAt(rows, first);
    assert CompletedFrom(rows, first) == later + here;
    assert later * here == {};
  }

  lemma CompletedAtSize(total: int, rows: set<SessionCheckpoint>, i: int)
    requires RowsWithin(total, rows)
    ensures |CompletedAt(rows, i)| == if IndexCompleted(rows, i) then 1 else 0
  {
    if IndexCompleted(rows, i) {
      var r :| r in rows && r.checkpointIndex == i && r.isCompleted;
      assert CompletedAt(rows, i) == {r};
    } else {
      assert CompletedAt(rows, i) == {};
    }
  }

  lemma {:induction false} TickedFrom(first: int, total: int, rows: set<SessionCheckpoint>)
    requires RowsWithin(total, rows)
    ensures CountTicked(StatusesFrom(first, total, rows)) == |CompletedFrom(rows, first)|
    decreases if first <= total then total - first + 1 else 0
  {
    if first > total {
      assert CompletedFrom(rows, first) == {};
    } else {
      var s := StatusesFrom(first, total, rows);
      var rest := StatusesFrom(first + 1, total, rows);
      assert s[1..] == rest;
      assert CountTicked(s) == (if IndexCompleted(rows, first) then 1 else 0) + CountTicked(rest);
      TickedFrom(first + 1, total, rows);
      SplitCompletedFrom(rows, first);
      CompletedAtSize(total, rows, first);
    }
  }

  /**
   * When every row's index lies in 1..total, the completed count equals the
   * number of ticked entries of the dense list.
   */
  lemma CompletedMatchesTicked(total: int, rows: set<SessionCheckpoint>)
    requires RowsWithin(total, rows)
    ensures BuildProgress(total, rows).completed == CountTicked(BuildProgress(total, rows).checkpoints)
  {
    TickedFrom(1, total, rows);
    assert CompletedFrom(rows, 1) == CompletedRows(rows);
  }

  // ---------------------------------------------------------------------
  // Scene characters (getCampaignWithConfig)
  // ---------------------------------------------------------------------

  /** `chars.find((c) => c.id === cid)` */
  function FindCharacter(chars: seq<Character>, id: Id): (r: Option<Character>)
    ensures r.Some? ==> r.value in chars && r.value.id == id
    ensures r.None? ==> forall c :: c in chars ==> c.id != id
  {
    if chars == [] then None
    else if chars[0].id == id then Some(chars[0])
    else FindCharacter(chars[1..], id)
  }

  /** `.filter((c) => c != null)` */
  function Present(found: seq<Option<Character>>): (r: seq<Character>)
    ensures |r| <= |found|
    ensures forall c :: c in r ==> Some(c) in found
  {
    if found == [] then []
    else (if found[0].Some? then [found[0].value] else []) + Present(found[1..])
  }

  /** Maintain the order of scene_characters: map each id to its row, drop the ids with none. */
  function ResolveSceneCharacters(ids: seq<Id>, chars: seq<Character>): (r: seq<Character>)
    ensures |r| <= |ids|
    ensures forall c :: c in r ==> c in chars && c.id in ids
  {
    var found := seq(|ids|, i requires 0 <= i < |ids| => FindCharacter(chars, ids[i]));
    assert forall c :: Some(c) in found ==> c in chars && c.id in ids by {
      forall c | Some(c) in found ensures c in chars && c.id in ids {
        var i :| 0 <= i < |ids| && found[i] == Some(c);
      }
    }
    Present(found)
  }

  predicate Known(chars: seq<Character>, id: Id) {
    exists c :: c in chars && c.id == id
  }

  /** The scene-character ids that have a row, in their configured order. */
  function KnownIds(ids: seq<Id>, chars: seq<Character>): seq<Id> {
    if ids == [] then []
    else (if Known(chars, ids[0]) then [ids[0]] else []) + KnownIds(ids[1..], chars)
  }

  function CharacterIds(cs: seq<Character>): seq<Id> {
    seq(|cs|, i requires 0 <= i < |cs| => cs[i].id)
  }

  /** The resolved characters are rows of the table, in the configured order, one per known id. */
  lemma {:induction false} ResolveKeepsOrder(ids: seq<Id>, chars: seq<Character>)
    ensures CharacterIds(ResolveSceneCharacters(ids, chars)) == KnownIds(ids, chars)
    ensures forall c :: c in ResolveSceneCharacters(ids, chars) ==> c in chars
  {
    if ids != [] {
      ResolveKeepsOrder(ids[1..], chars);
      var found := seq(|ids|, i requires 0 <= i < |ids| => FindCharacter(chars, ids[i]));
      assert found[1..] == seq(|ids| - 1, i requires 0 <= i < |ids| - 1 => FindCharacter(chars, ids[1..][i]));
      var head := if found[0].Some? then [found[0].value] else [];
      var rest := ResolveSceneCharacters(ids[1..], chars);
      assert ResolveSceneCharacters(ids, chars) == head + rest;
      assert CharacterIds(head + rest) == CharacterIds(head) + CharacterIds(rest);
    }
  }

  /** When every configured id has a row, every scene character is resolved. */
  lemma {:induction false} AllKnownResolveFully(ids: seq<Id>, chars: seq<Character>)
    requires forall i :: 0 <= i < |ids| ==> Known(chars, ids[i])
    ensures |ResolveSceneCharacters(ids, chars)| == |ids|
    ensures CharacterIds(ResolveSceneCharacters(ids, chars)) == ids
  {
    AllKnownIds(ids, chars);
    ResolveKeepsOrder(ids, chars);
  }

  lemma {:induction false} AllKnownIds(ids: seq<Id>, chars: seq<Character>)
    requires forall i :: 0 <= i < |ids| ==> Known(chars, ids[i])
    ensures KnownIds(ids, chars) == ids
  {
    if ids != [] {
      assert Known(chars, ids[0]);
      AllKnownIds(ids[1..], chars);
    }
  }

  // ---------------------------------------------------------------------
  // Redeem-token expiry
  // ---------------------------------------------------------------------

  const MillisPerDay: int := 24 * 60 * 60 * 1000

  /** The default lifetime of a redeem token, in days. */
  const RedeemTtlDays: int := 7

  /** `Date.now() + ttlDays * 24 * 60 * 60 * 1000` */
  function ExpiryFrom(now: int, ttlDays: int): (expiresAt: int)
    ensures (expiresAt - now) % MillisPerDay == 0 && (expiresAt - now) / MillisPerDay == ttlDays
    ensures ttlDays > 0 ==> expiresAt > now
  {
    now + ttlDays * MillisPerDay
  }
}
