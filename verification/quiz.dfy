/** POST /quizzes: the quiz selector as `get_quiz_questions` writes it, and the
    selector its comments describe, with the lemmas that set one against the
    other. The random draw `random.randint(0, len(pool) - 1)` is a parameter:
    any natural number `pick`, reduced into the pool as `pick % len(pool)`, so
    that every index can be drawn. */
module Quiz {
  import opened Json
  import opened DataAccess
  import opened Http

  /** The two fields the handler reads from the body. */
  datatype QuizRequest = QuizRequest(categoryId: Json, previous: Json)

  /** `body.get('previous_questions')`, `body.get('quiz_category')` and
      `quiz_category['id']`: a body that is not an object, a category that is
      not an object, or a category without an id raises, and the `except`
      answers 404. */
  function ParseRequest(body: Json): (r: Eval<QuizRequest>)
    ensures r.Value? <==>
      body.Obj? && Field(body.fields, "quiz_category", Null).Obj?
      && "id" in Field(body.fields, "quiz_category", Null).fields
    ensures r.Value? ==>
      && r.value.previous == Field(body.fields, "previous_questions", Null)
      && r.value.categoryId == Field(body.fields, "quiz_category", Null).fields["id"]
  {
    if !body.Obj? then Raised
    else
      match Subscript(Field(body.fields, "quiz_category", Null), "id")
      case Raised => Raised
      case Value(id) => Value(QuizRequest(id, Field(body.fields, "previous_questions", Null)))
  }

  /** The quiz pool. Only a category id that Python finds `== 0` selects every
      question (the int 0, or JSON false); the string "0" does not, and falls
      to the database filter `category = id`. */
  function QuizPool(s: Store, categoryId: Json, db: Db): (pool: seq<Question>)
    ensures EqualsInt(categoryId, 0) ==> pool == s.questions
    ensures !EqualsInt(categoryId, 0) ==>
      forall q :: q in pool <==> q in s.questions && db.sameCategory(q.category, categoryId)
    ensures forall q :: q in pool ==> q in s.questions
  {
    if EqualsInt(categoryId, 0) then s.questions
    else Filter(s.questions, (q: Question) => db.sameCategory(q.category, categoryId))
  }

  /** The state the loop starts from: the pool, the drawn index, and
      `previous_questions` as sent. */
  datatype Draw = Draw(pool: seq<Question>, index: nat, previous: Json)

  /** Everything before the loop. An empty pool makes `randint(0, -1)` raise. */
  function Prepare(s: Store, body: Json, pick: nat, db: Db): (r: Eval<Draw>)
    ensures r.Value? <==> ParseRequest(body).Value? && |QuizPool(s, ParseRequest(body).value.categoryId, db)| > 0
    ensures r.Value? ==>
      && r.value.pool == QuizPool(s, ParseRequest(body).value.categoryId, db)
      && r.value.index < |r.value.pool|
      && r.value.previous == ParseRequest(body).value.previous
  {
    match ParseRequest(body)
    case Raised => Raised
    case Value(req) =>
      var pool := QuizPool(s, req.categoryId, db);
      if |pool| == 0 then Raised
      else Value(Draw(pool, pick % |pool|, req.previous))
  }

  const NoMoreQuestions: Response := Response(200, MessageBody("message", "No more questions left"))

  function QuestionResponse(q: Question): Response
  {
    Response(200, QuestionBody(q))
  }

  /** The `while active_questions:` loop: the flag and the current pick while
      it runs, or the handler's result once control has left it (by `return`,
      by an exception, or by falling out of the loop to the question response
      after it). */
  datatype LoopState = Loop(active: bool, next: Question) | Exit(result: Eval<Response>)

  function Start(d: Draw): LoopState
    requires d.index < |d.pool|
  {
    Loop(true, d.pool[d.index])
  }

  /** One evaluation of the loop test and, when it holds, of the loop body.
      A seen pick is replaced by `questions[randomizerIndex]`, the same
      question again; an unseen pick clears the flag and returns the
      exhaustion message at once. */
  function Step(d: Draw, st: LoopState): LoopState
    requires d.index < |d.pool|
  {
    match st
    case Exit(_) => st
    case Loop(active, next) =>
      if !active then Exit(Value(QuestionResponse(next)))
      else
        match Contains(d.previous, next.id)
        case Raised => Exit(Raised)
        case Value(seen) =>
          if seen then Loop(true, d.pool[d.index]) else Exit(Value(NoMoreQuestions))
  }

  /** `k` iterations of the loop. */
  function Run(d: Draw, st: LoopState, k: nat): LoopState
    requires d.index < |d.pool|
    decreases k
  {
    if k == 0 then st else Run(d, Step(d, st), k - 1)
  }

  lemma {:induction false} RunFromExit(d: Draw, result: Eval<Response>, k: nat)
    requires d.index < |d.pool|
    ensures Run(d, Exit(result), k) == Exit(result)
  {
    if k > 0 {
      RunFromExit(d, result, k - 1);
    }
  }

  /** A pick that is already in `previous_questions` is a fixed point of the
      loop: after any number of iterations the loop is still running, on the
      same question, so it never terminates. */
  lemma {:induction false} SeenPickSpinsForever(d: Draw, k: nat)
    requires d.index < |d.pool|
    requires Contains(d.previous, d.pool[d.index].id) == Value(true)
    ensures Run(d, Start(d), k) == Start(d)
  {
    if k > 0 {
      assert Step(d, Start(d)) == Start(d);
      SeenPickSpinsForever(d, k - 1);
    }
  }

  /** However long it runs, the loop is never left with its flag cleared, so
      the question response after it is unreachable: it is still running,
      has raised, or has answered "No more questions left". */
  lemma {:induction false} LoopNeverServesQuestion(d: Draw, k: nat)
    requires d.index < |d.pool|
    ensures var st := Run(d, Start(d), k);
      st == Start(d) || st == Exit(Raised) || st == Exit(Value(NoMoreQuestions))
  {
    if k > 0 {
      var next := Step(d, Start(d));
      if next == Start(d) {
        LoopNeverServesQuestion(d, k - 1);
      } else {
        RunFromExit(d, next.result, k - 1);
      }
    }
  }

  /** The handler's fate: a response, or a loop that runs forever. */
  datatype QuizResult = Answered(response: Response) | Diverges

  /** `get_quiz_questions` as written. It reports exhaustion exactly when the
      drawn question has NOT been played, spins exactly when it has, and never
      serves a question. */
  function PlayQuiz(s: Store, body: Json, pick: nat, db: Db): (r: QuizResult)
    ensures r.Answered? ==> r.response == Abort(NotFound) || r.response == NoMoreQuestions
    ensures r == Answered(NoMoreQuestions) <==>
      Prepare(s, body, pick, db).Value?
      && var d := Prepare(s, body, pick, db).value;
         Contains(d.previous, d.pool[d.index].id) == Value(false)
    ensures r == Diverges <==>
      Prepare(s, body, pick, db).Value?
      && var d := Prepare(s, body, pick, db).value;
         Contains(d.previous, d.pool[d.index].id) == Value(true)
  {
    match Prepare(s, body, pick, db)
    case Raised => Answered(Abort(NotFound))
    case Value(d) =>
      match Step(d, Start(d))
      case Exit(result) => if result.Raised? then Answered(Abort(NotFound)) else Answered(result.value)
      case Loop(_, _) => Diverges
  }

  /** When the handler is classed as diverging, the loop it entered is still
      running after every number of iterations. */
  lemma DivergesMeansNoIterationEnds(s: Store, body: Json, pick: nat, db: Db, k: nat)
    requires PlayQuiz(s, body, pick, db) == Diverges
    ensures Prepare(s, body, pick, db).Value?
    ensures var d := Prepare(s, body, pick, db).value;
      Run(d, Start(d), k).Loop? && Run(d, Start(d), k).active
  {
    SeenPickSpinsForever(Prepare(s, body, pick, db).value, k);
  }

  /** The body `{}` is answered 404, not 400. */
  lemma EmptyBodyIsNotFound(s: Store, pick: nat, db: Db)
    ensures PlayQuiz(s, Obj(map[]), pick, db) == Answered(Abort(NotFound))
  {
  }

  /** A body the handler cannot read (not an object, no `quiz_category`
      object, or no `id` in it) is answered 404 by both selectors. */
  lemma UnparsedBodyIsNotFound(s: Store, body: Json, pick: nat, db: Db)
    requires ParseRequest(body).Raised?
    ensures PlayQuiz(s, body, pick, db) == Answered(Abort(NotFound))
    ensures PlayQuizIntended(s, body, pick, db) == Abort(NotFound)
  {
  }

  /** The draw reaches every position of a non-empty pool: position `i` is
      drawn by `pick == i`. */
  lemma EveryIndexCanBeDrawn(s: Store, body: Json, db: Db, i: nat)
    requires ParseRequest(body).Value?
    requires i < |QuizPool(s, ParseRequest(body).value.categoryId, db)|
    ensures exists pick: nat :: Prepare(s, body, pick, db).Value? && Prepare(s, body, pick, db).value.index == i
  {
    var n := |QuizPool(s, ParseRequest(body).value.categoryId, db)|;
    assert i % n == i;
    assert Prepare(s, body, i, db).value.index == i;
  }

  /** An empty pool: the handler as written raises in `randint(0, -1)` and answers 404;
      the intended selector reports exhaustion. */
  lemma EmptyPoolIsExhaustion(s: Store, body: Json, pick: nat, db: Db)
    requires ParseRequest(body).Value?
    requires IsContainer(ParseRequest(body).value.previous)
    requires QuizPool(s, ParseRequest(body).value.categoryId, db) == []
    ensures PlayQuiz(s, body, pick, db) == Answered(Abort(NotFound))
    ensures PlayQuizIntended(s, body, pick, db) == NoMoreQuestions
  {
  }

  /** The questions of the pool that `previous_questions` does not list. */
  function Unseen(pool: seq<Question>, previous: Json): (e: seq<Question>)
    ensures forall q :: q in e <==> q in pool && !Listed(previous, q.id)
  {
    Filter(pool, (q: Question) => !Listed(previous, q.id))
  }

  /** The selector the comments describe: choose among the pool's questions
      that have not been played, and report exhaustion, as a normal response,
      when there are none (an empty pool included). It answers 404 exactly
      when the body does not parse or `previous_questions` is not a list or
      dict; an empty pool, which the handler as written answers with 404 from
      `randint`, is exhaustion here. */
  function PlayQuizIntended(s: Store, body: Json, pick: nat, db: Db): (r: Response)
    ensures r.status == 404 <==> ParseRequest(body).Raised? || !IsContainer(ParseRequest(body).value.previous)
    ensures r.status == 404 ==> r == Abort(NotFound)
    ensures r.status != 404 ==>
      var req := ParseRequest(body).value;
      var pool := QuizPool(s, req.categoryId, db);
      && r.status == 200
      && (r == NoMoreQuestions <==> forall q :: q in pool ==> Listed(req.previous, q.id))
      && (r != NoMoreQuestions ==>
            r.body.QuestionBody? && r.body.question in pool && !Listed(req.previous, r.body.question.id))
  {
    match ParseRequest(body)
    case Raised => Abort(NotFound)
    case Value(req) =>
      if !IsContainer(req.previous) then Abort(NotFound)
      else
        var eligible := Unseen(QuizPool(s, req.categoryId, db), req.previous);
        if |eligible| == 0 then NoMoreQuestions
        else
          assert eligible[pick % |eligible|] in eligible;
          QuestionResponse(eligible[pick % |eligible|])
  }

  /** Every question not yet played can come up: some draw serves it. */
  lemma IntendedCanServeEveryUnseen(s: Store, body: Json, db: Db, q: Question)
    requires ParseRequest(body).Value?
    requires IsContainer(ParseRequest(body).value.previous)
    requires q in QuizPool(s, ParseRequest(body).value.categoryId, db)
    requires !Listed(ParseRequest(body).value.previous, q.id)
    ensures exists pick: nat :: PlayQuizIntended(s, body, pick, db) == QuestionResponse(q)
  {
    var req := ParseRequest(body).value;
    var eligible := Unseen(QuizPool(s, req.categoryId, db), req.previous);
    var k := IndexOf(eligible, q);
    IntendedServesAt(s, body, k, db);
  }

  /** The position of a member of a sequence. */
  function IndexOf(items: seq<Question>, q: Question): (k: nat)
    requires q in items
    ensures k < |items| && items[k] == q && k % |items| == k
  {
    if items[0] == q then 0 else 1 + IndexOf(items[1..], q)
  }

  lemma IntendedServesAt(s: Store, body: Json, pick: nat, db: Db)
    requires ParseRequest(body).Value?
    requires IsContainer(ParseRequest(body).value.previous)
    ensures var req := ParseRequest(body).value;
      var eligible := Unseen(QuizPool(s, req.categoryId, db), req.previous);
      |eligible| > 0 ==> PlayQuizIntended(s, body, pick, db) == QuestionResponse(eligible[pick % |eligible|])
  {
  }

  /** Whenever the handler as written reports "No more questions left", a
      question had not been played: the intended selector serves one. */
  lemma WrittenExhaustionIsPremature(s: Store, body: Json, pick: nat, db: Db)
    requires PlayQuiz(s, body, pick, db) == Answered(NoMoreQuestions)
    ensures PlayQuizIntended(s, body, pick, db).body.QuestionBody?
  {
    var d := Prepare(s, body, pick, db).value;
    var q := d.pool[d.index];
    assert q in d.pool;
    assert q in Unseen(d.pool, d.previous);
  }

  /** When every question of a non-empty pool has been played, the handler as
      written never answers, while the intended selector reports exhaustion. */
  lemma ExhaustedPoolSpinsInsteadOfReporting(s: Store, body: Json, pick: nat, db: Db)
    requires ParseRequest(body).Value?
    requires IsContainer(ParseRequest(body).value.previous)
    requires |QuizPool(s, ParseRequest(body).value.categoryId, db)| > 0
    requires forall q :: q in QuizPool(s, ParseRequest(body).value.categoryId, db) ==>
               Listed(ParseRequest(body).value.previous, q.id)
    ensures PlayQuiz(s, body, pick, db) == Diverges
    ensures PlayQuizIntended(s, body, pick, db) == NoMoreQuestions
  {
    var d := Prepare(s, body, pick, db).value;
    assert d.pool[d.index] in d.pool;
  }

  /** One question, id 1, and the category id 0. With nothing played the
      handler as written says there are no more questions, although the
      intended selector serves question 1; with question 1 played it spins,
      although the intended selector reports exhaustion. */
  lemma OneQuestionExample(pick: nat, db: Db)
    ensures var q := Question(1, Str("Q"), Str("A"), Str("1"), Int(1));
      var s := Store([q], [Category(1, "Science")], 2);
      var unplayed := Obj(map["previous_questions" := Arr([]), "quiz_category" := Obj(map["id" := Int(0)])]);
      var played := Obj(map["previous_questions" := Arr([Int(1)]), "quiz_category" := Obj(map["id" := Int(0)])]);
      && PlayQuiz(s, unplayed, pick, db) == Answered(NoMoreQuestions)
      && PlayQuizIntended(s, unplayed, pick, db) == QuestionResponse(q)
      && PlayQuiz(s, played, pick, db) == Diverges
      && PlayQuizIntended(s, played, pick, db) == NoMoreQuestions
  {
    var q := Question(1, Str("Q"), Str("A"), Str("1"), Int(1));
    var s := Store([q], [Category(1, "Science")], 2);
    var played := Obj(map["previous_questions" := Arr([Int(1)]), "quiz_category" := Obj(map["id" := Int(0)])]);
    assert Listed(Arr([Int(1)]), 1) by {
      assert EqualsInt(Arr([Int(1)]).items[0], 1);
    }
    assert pick % 1 == 0;
    assert Unseen(s.questions, Arr([Int(1)])) == [];
  }
}
