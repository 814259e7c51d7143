/** The route handlers of `create_app`, each a function from the store and the
    parsed request to the response (and, for the two that write, the store
    afterwards). `abort(code)` is the registered error handler's response. */
module Handlers {
  import opened Wrappers
  import opened Json
  import opened DataAccess
  import opened Paging
  import opened Http

  /** A response together with the store the request leaves behind. */
  datatype Outcome = Outcome(response: Response, store: Store)

  /** GET /categories: every category, as an id-to-type dictionary. */
  function GetCategories(s: Store): (r: Response)
    ensures r.status == 200 && r.body.Success() && r.body.CategoriesBody?
    ensures r.body.categories.Keys == set c | c in s.categories :: c.id
    ensures DistinctCategoryIds(s.categories) ==>
      forall c :: c in s.categories ==> r.body.categories[c.id] == c.kind
  {
    CategoryMapLabels(s.categories);
    Response(200, CategoriesBody(CategoryMap(s.categories)))
  }

  /** GET /questions?page=N: one page of all questions; an empty page is a 404. */
  function ListQuestions(s: Store, page: int): (r: Response)
    ensures r.status == 404 <==> Paginate(s.questions, page) == []
    ensures page >= 1 ==> (r.status == 404 <==> |s.questions| <= (page - 1) * QuestionsPerPage)
    ensures page == 0 ==> r == Abort(NotFound)
    ensures r.status == 404 ==> r == Abort(NotFound)
    ensures r.status != 404 ==>
      && r.status == 200
      && r.body.QuestionsBody?
      && r.body.questionsKey == "questions"
      && 1 <= |r.body.questions| <= QuestionsPerPage
      && r.body.questions == Paginate(s.questions, page)
      && r.body.totalQuestions == |s.questions|
      && r.body.currentCategory == None
      && r.body.categoryMap == Some(CategoryMap(s.categories))
  {
    var current := Paginate(s.questions, page);
    if |current| == 0 then Abort(NotFound)
    else Response(200, QuestionsBody("questions", current, |s.questions|, None, Some(CategoryMap(s.categories))))
  }

  /** `?page=-1` is answered with rows from the tail whenever there are more
      than ten questions, although it is not a page of the listing. */
  lemma NegativePageListed(s: Store)
    requires |s.questions| > QuestionsPerPage
    ensures ListQuestions(s, -1).status == 200
    ensures ListQuestions(s, -1).body.questions
         == s.questions[Max(|s.questions| - 2 * QuestionsPerPage, 0)..|s.questions| - QuestionsPerPage]
  {
    NegativePageIsServed(s.questions);
  }

  /** DELETE /questions/<id>: `get` gives None for a missing id, `None.delete()`
      raises, and the handler answers 422. */
  function DeleteQuestion(s: Store, id: nat): (o: Outcome)
    ensures o.response.status == 200 <==> exists q :: q in s.questions && q.id == id
    ensures o.response.status != 200 ==> o.response == Abort(Unprocessable) && o.store == s
    ensures o.response.status == 200 ==>
      && o.response.body == MessageBody("message", "Question successfully deleted")
      && o.store == Delete(s, id)
    ensures Valid(s) ==> Valid(o.store)
  {
    match Find(s.questions, id)
    case None => Outcome(Abort(Unprocessable), s)
    case Some(_) => Outcome(Response(200, MessageBody("message", "Question successfully deleted")), Delete(s, id))
  }

  /** Deleting the question at position `i` removes exactly it: every other
      question stays, in order, and nothing else in the store changes. */
  lemma DeleteRemovesExactlyOne(s: Store, i: int)
    requires Valid(s)
    requires 0 <= i < |s.questions|
    ensures DeleteQuestion(s, s.questions[i].id).response.status == 200
    ensures DeleteQuestion(s, s.questions[i].id).store
         == s.(questions := s.questions[..i] + s.questions[i + 1..])
  {
    assert s.questions[i] in s.questions;
    RemoveAt(s.questions, i);
  }

  /** Deleting the same id twice: the second request is a 422 and changes nothing. */
  lemma DeleteTwice(s: Store, id: nat)
    ensures var t := DeleteQuestion(s, id).store;
      DeleteQuestion(t, id) == Outcome(Abort(Unprocessable), t)
  {
  }

  /** POST /questions: the four fields are read with `data.get` (None when
      absent) and inserted. A body that is not an object makes `data.get`
      raise, and a failed insert raises too; both are answered with 422. */
  function CreateQuestion(s: Store, data: Json, insertFails: bool): (o: Outcome)
    ensures o.response.status == 201 <==> data.Obj? && !insertFails
    ensures o.response.status != 201 ==> o.response == Abort(Unprocessable) && o.store == s
    ensures o.response.status == 201 ==>
      && o.response.body == MessageBody("messgae", "Question successfully created")
      && o.store.categories == s.categories
      && o.store.questions == s.questions + [Question(s.nextId,
           Field(data.fields, "question", Null), Field(data.fields, "answer", Null),
           Field(data.fields, "category", Null), Field(data.fields, "difficulty", Null))]
    ensures Valid(s) ==> Valid(o.store)
  {
    if !data.Obj? || insertFails then Outcome(Abort(Unprocessable), s)
    else
      var t := Insert(s, Field(data.fields, "question", Null), Field(data.fields, "answer", Null),
                      Field(data.fields, "category", Null), Field(data.fields, "difficulty", Null));
      assert t.questions == t.questions[..|s.questions|] + [t.questions[|s.questions|]];
      Outcome(Response(201, MessageBody("messgae", "Question successfully created")), t)
  }

  /** After a successful create, the first page of the listing is served and
      its total is one more than before. */
  lemma CreateThenList(s: Store, data: Json)
    requires data.Obj?
    ensures var t := CreateQuestion(s, data, false).store;
      && ListQuestions(t, 1).status == 200
      && ListQuestions(t, 1).body.totalQuestions == |s.questions| + 1
  {
  }

  /** The search filter `Question.question.ilike(f'%{term}%')`. */
  function MatchesTerm(db: Db, term: Json): Question -> bool
  {
    (q: Question) => db.ilike(q.question, term)
  }

  /** POST /questions/search: `data.get('searchTerm', '')` runs before the
      `try`, so a body that is not an object raises out of the handler and
      the 500 handler answers. The total is the count of all questions, not
      of the matches; no match is a 200 with an empty list. */
  function SearchQuestions(s: Store, data: Json, page: int, db: Db): (r: Response)
    ensures r.status == 200 <==> data.Obj?
    ensures r.status != 200 ==> r == Abort(InternalError)
    ensures r.status == 200 ==>
      var term := Field(data.fields, "searchTerm", Str(""));
      && r.body.QuestionsBody?
      && r.body.questionsKey == "questions"
      && |r.body.questions| <= QuestionsPerPage
      && (forall q :: q in r.body.questions ==> q in s.questions && db.ilike(q.question, term))
      && r.body.questions == Paginate(Filter(s.questions, MatchesTerm(db, term)), page)
      && r.body.totalQuestions == |s.questions|
      && r.body.currentCategory == None
      && r.body.categoryMap == None
  {
    if !data.Obj? then Abort(InternalError)
    else
      var term := Field(data.fields, "searchTerm", Str(""));
      var results := Filter(s.questions, MatchesTerm(db, term));
      var current := Paginate(results, page);
      Response(200, QuestionsBody("questions", current, |s.questions|, None, None))
  }

  /** A newly created question whose text matches the term is found by the
      search, on page 1 when fewer than ten earlier questions match. */
  lemma CreatedQuestionIsFound(s: Store, data: Json, term: Json, db: Db)
    requires data.Obj?
    requires db.ilike(Field(data.fields, "question", Null), term)
    requires |Filter(s.questions, MatchesTerm(db, term))| < QuestionsPerPage
    ensures var t := CreateQuestion(s, data, false).store;
      var r := SearchQuestions(t, Obj(map["searchTerm" := term]), 1, db);
      && r.status == 200
      && t.questions[|s.questions|] in r.body.questions
  {
    var t := CreateQuestion(s, data, false).store;
    var x := t.questions[|s.questions|];
    var p := MatchesTerm(db, term);
    FilterAppend(s.questions, x, p);
    assert t.questions == s.questions + [x];
    var results := Filter(t.questions, p);
    assert results == Filter(s.questions, p) + [x];
    assert results[|results| - 1] == x;
    var r := SearchQuestions(t, Obj(map["searchTerm" := term]), 1, db);
    assert r.body.questions == Paginate(Filter(t.questions, p), 1);
  }

  /** The category filter `Question.category == str(id)`. */
  function InCategory(db: Db, id: nat): Question -> bool
  {
    (q: Question) => db.sameCategory(q.category, Str(Decimal(id)))
  }

  /** GET /categories/<id>/questions?page=N. The questions are those whose
      category equals `str(id)`; the list goes under the singular key
      'question'; the current category is the type label; the total is the
      count of all questions. For a missing category `.first()` gives None,
      `cats[0]` raises, and the handler answers 404. An empty page of an
      existing category is still a 200. */
  function ListCategoryQuestions(s: Store, id: nat, page: int, db: Db): (r: Response)
    ensures r.status == 404 <==> forall c :: c in s.categories ==> c.id != id
    ensures r.status == 404 ==> r == Abort(NotFound)
    ensures r.status != 404 ==>
      && r.status == 200
      && r.body.QuestionsBody?
      && r.body.questionsKey == "question"
      && |r.body.questions| <= QuestionsPerPage
      && (forall q :: q in r.body.questions ==> q in s.questions && db.sameCategory(q.category, Str(Decimal(id))))
      && r.body.questions == Paginate(Filter(s.questions, InCategory(db, id)), page)
      && r.body.totalQuestions == |s.questions|
      && r.body.currentCategory.Some?
      && Category(id, r.body.currentCategory.value) in s.categories
      && r.body.categoryMap == None
  {
    match FirstCategory(s.categories, id)
    case None => Abort(NotFound)
    case Some(c) =>
      var inCategory := Filter(s.questions, InCategory(db, id));
      var current := Paginate(inCategory, page);
      Response(200, QuestionsBody("question", current, |s.questions|, Some(c.kind), None))
  }

  /** With unique category ids the current category is exactly the type of
      the requested category. */
  lemma CategoryListingLabel(s: Store, c: Category, page: int, db: Db)
    requires DistinctCategoryIds(s.categories)
    requires c in s.categories
    ensures ListCategoryQuestions(s, c.id, page, db).body.currentCategory == Some(c.kind)
  {
    var r := ListCategoryQuestions(s, c.id, page, db);
    var d := Category(c.id, r.body.currentCategory.value);
    var i :| 0 <= i < |s.categories| && s.categories[i] == c;
    var j :| 0 <= j < |s.categories| && s.categories[j] == d;
    assert i == j;
  }
}
