# Trivia API: a Dafny model of its request handlers

The trivia API stores questions (text, answer, category, difficulty) and
categories, and serves them over HTTP. Its logic sits in
`backend/flaskr/__init__.py`:

- pagination in pages of ten;
- one handler per route: list categories, list questions, delete, create,
  search, list by category, play quiz;
- a quiz selector loop;
- five JSON error handlers.

This project replaces the database with two in-memory tables and the framework
with plain values. Each route becomes a pure function from the store and the
parsed request to the response and, for delete and create, the new store.

Modules:

- `Wrappers` (`wrappers.dfy`): the `Option` type of lookups that may find
  nothing.
- `Json` (`json.dfy`): the parsed request body as Python sees it. It covers
  `dict.get`, subscripting, `== 0` (where `False == 0`), `in` (which raises
  TypeError on a non-container) and `str()` of a route id.
- `DataAccess` (`data_access.dfy`): question and category rows, and the store
  with its id sequence. It provides the table operations: filter, get by
  primary key, delete, insert, and the id-to-type dictionary. It also defines
  the store invariant `Valid`: primary keys are unique, and every question id
  was issued by the sequence.
- `Paging` (`paging.dfy`): `get_paginated_questions` with Python's slice
  semantics, including negative bounds.
- `Http` (`http.dfy`): response bodies and the error mapper.
- `Handlers` (`handlers.dfy`): the six non-quiz routes.
- `Quiz` (`quiz.dfy`): the quiz handler, with its loop as written, and the
  selector its comments describe.

The database's own comparisons are left uninterpreted. They are the SQL
`category = value` test and `ilike '%term%'`, passed in as a `Db` value. The
random draw `random.randint(0, n - 1)` is a parameter `pick`, reduced into the
pool as `pick % n`, so every index can be drawn.

In these places the model follows the code literally, including behaviour a
caller might not expect:

- A quiz request without usable data is answered 404, not 400: every
  exception in the quiz handler is turned into `abort(404)` (lines 223-224).
  The test named `test_400_no_quiz_data` (`backend/test_flaskr.py:195-199`)
  also expects 404.
- An empty quiz pool is answered 404, because `random.randint(0, -1)` raises
  (line 200). The handler does not report exhaustion for it.
- A missing question id on delete is answered 422. `query.get` gives None,
  and `None.delete()` raises inside the `try` (lines 92-93, 100-101).
- The 500 body says "An internal error has occured" with that spelling
  (line 270), and the create response uses the key `messgae` (line 123).
- Search and category listing report the count of all questions as
  `total_questions` (lines 147, 164 and 171), not the count of the matches.

The bundled tests (`backend/test_flaskr.py`) disagree with the code at
the lines below, and the model follows the code in each:

- Line 133 reads the key `questions` from a category listing. The code writes
  `question` (line 170).
- Line 135 expects `total_questions == 3` from a category listing. The code
  sends the count of all questions.
- Line 136 expects `current_category == 1`. The code sends the type label.
- Lines 161, 176 and 191 expect a served quiz question. The code can never serve
  one (see Findings).

## Model

| member | source | states |
|---|---|---|
| Json.Decimal | backend/flaskr/__init__.py:165 | `str(cat_id)` is the canonical decimal numeral: digits only, no leading zero, and parsing it gives back `cat_id` |
| Json.DecimalInjective | backend/flaskr/__init__.py:165 | distinct category ids give distinct `str(cat_id)` filter values |
| Json.ContainsMeansEqualItem | backend/flaskr/__init__.py:208 | `id in previous_questions` is true for a list exactly when it holds the int `id`, or holds `false` and `id` is 0, or holds `true` and `id` is 1; for a dict it is always false, since JSON keys are strings |
| DataAccess.Filter | backend/flaskr/__init__.py:141 | a query filter keeps exactly the rows that satisfy the predicate, and never more rows than the table has |
| DataAccess.FilterAppend | backend/flaskr/__init__.py:119 | an appended row lands at the end of every filter result that keeps it, after the earlier results unchanged |
| DataAccess.Find | backend/flaskr/__init__.py:92 | `query.get(id)` returns a row with that id when one exists and None exactly when none does |
| DataAccess.Remove | backend/flaskr/__init__.py:93 | deleting id `id` keeps exactly the rows whose id differs |
| DataAccess.RemoveAt | backend/flaskr/__init__.py:92-93 | with unique ids, deleting the id at position i gives the table without position i, other rows in their original order |
| DataAccess.RemoveKeepsDistinct | backend/flaskr/__init__.py:93 | deleting rows keeps primary keys unique |
| DataAccess.Delete | backend/flaskr/__init__.py:93 | delete preserves the store invariant, keeps the categories and the id sequence, and keeps exactly the other questions |
| DataAccess.Insert | backend/flaskr/__init__.py:118-119 | insert preserves the store invariant, keeps every earlier row in place, and appends one row carrying the next sequence id and the four given values |
| DataAccess.CategoryMap | backend/flaskr/__init__.py:55 | the dictionary's keys are exactly the category ids, and each key maps to the type of a category with that id |
| DataAccess.CategoryMapLabels | backend/flaskr/__init__.py:80 | with unique category ids, every category's id maps to its own type |
| DataAccess.FirstCategory | backend/flaskr/__init__.py:162 | `.first()` finds a category with the requested id exactly when one exists |
| Paging.Paginate | backend/flaskr/__init__.py:13-21 | at most ten rows, all from the list. Page p ≥ 1 is `items[(p-1)*10 .. min(p*10, n)]`, empty exactly when `(p-1)*10 ≥ n`. Page 0 is empty. A negative page is a window counted from the tail |
| Paging.PagesCoverInOrder | backend/flaskr/__init__.py:13-21 | pages 1..k concatenated are the first `10k` rows, in order, so walking the pages visits each row once |
| Paging.NegativePageIsServed | backend/flaskr/__init__.py:14-19 | with more than ten rows, page -1 is the non-empty window ending ten rows before the end |
| Paging.PageInRange | backend/flaskr/__init__.py:71-73 | corrected pagination: a page has rows exactly when 1 ≤ p and `(p-1)*10 < n`, and then it is the page as written |
| Http.HandlerFor | backend/flaskr/__init__.py:233-271 | a handler is registered for a status exactly when it is one of 400, 404, 405, 422, 500, and the handler's code is that status |
| Http.Abort | backend/flaskr/__init__.py:233-271 | an error response has success false, `error` equal to its status, the fixed message of that status's handler ("occured" included), and maps back to the same handler |
| Http.ErrorTableIsOneToOne | backend/flaskr/__init__.py:233-271 | the five handlers have distinct codes and distinct fixed messages, and each code leads back to its handler |
| Handlers.GetCategories | backend/flaskr/__init__.py:48-56 | 200 with success, the keys are exactly the category ids, and with unique ids each id maps to its own type |
| Handlers.ListQuestions | backend/flaskr/__init__.py:65-81 | 404 exactly when the page slice is empty: for p ≥ 1 exactly when `n ≤ (p-1)*10`, and always for page 0. Otherwise 200 with 1..10 questions from the page, `total_questions` = count of all questions, `current_category` null, and the category dictionary |
| Handlers.NegativePageListed | backend/flaskr/__init__.py:68-73 | with more than ten questions, `page=-1` is answered 200 with tail rows instead of 404 |
| Handlers.DeleteQuestion | backend/flaskr/__init__.py:89-101 | 200 exactly when a question has the id, and then the store is the delete of that id. Otherwise 422 with the store unchanged. The store invariant is preserved |
| Handlers.DeleteRemovesExactlyOne | backend/flaskr/__init__.py:89-98 | deleting an existing question removes exactly it; every other question, the categories and the sequence are unchanged |
| Handlers.DeleteTwice | backend/flaskr/__init__.py:89-101 | a second delete of the same id is a 422 that changes nothing |
| Handlers.CreateQuestion | backend/flaskr/__init__.py:109-127 | 201 (key `messgae`) exactly when the body is an object and the insert succeeds, and the store gains exactly one question carrying the four fields (None when absent). Otherwise 422 and no change. The store invariant is preserved |
| Handlers.CreateThenList | backend/flaskr/__init__.py:109-124 | after a successful create, page 1 of the listing is served and `total_questions` is one more than before |
| Handlers.SearchQuestions | backend/flaskr/__init__.py:135-151 | a body that is not an object gives 500, because `data.get` is outside the `try`. Otherwise 200 with the requested page of the matching questions (each in the store and matching the term), `total_questions` = count of all questions, `current_category` null |
| Handlers.CreatedQuestionIsFound | backend/flaskr/__init__.py:135-149 | a newly created question whose text matches the term is found on page 1 of the search when fewer than ten earlier questions match |
| Handlers.ListCategoryQuestions | backend/flaskr/__init__.py:159-175 | 404 exactly when no category has the id. Otherwise 200 under key `question` with the page of questions whose category equals `str(id)`, `total_questions` = count of all questions, and `current_category` the type of a category with that id. An empty page is still a 200 |
| Handlers.CategoryListingLabel | backend/flaskr/__init__.py:162-172 | with unique category ids, `current_category` is the requested category's own type |
| Quiz.UnparsedBodyIsNotFound | backend/flaskr/__init__.py:189-194 | a body that is not an object, or lacks a `quiz_category` object with an `id`, is answered 404 by the handler as written (lines 223-224) and by the corrected selector |
| Quiz.QuizPool | backend/flaskr/__init__.py:193-197 | the pool is every question when the id `== 0` (int 0 or false, but not the string "0"); otherwise exactly the questions the database matches to the id |
| Quiz.EveryIndexCanBeDrawn | backend/flaskr/__init__.py:200-201 | every position of a non-empty pool is drawn for some value of the random draw |
| Quiz.EmptyPoolIsExhaustion | backend/flaskr/__init__.py:200 | with an empty pool and a list or dict `previous_questions`, the handler as written answers 404 (`randint(0, -1)` raises), while the corrected selector reports that no questions are left |
| Quiz.SeenPickSpinsForever | backend/flaskr/__init__.py:207-209 | a drawn question already in `previous_questions` is a fixed point of the loop: after any number of iterations the loop is still running on it |
| Quiz.LoopNeverServesQuestion | backend/flaskr/__init__.py:203-221 | after any number of iterations the loop is still running, has raised, or has answered "No more questions left"; the question response after it is unreachable |
| Quiz.PlayQuiz | backend/flaskr/__init__.py:185-224 | the handler as written answers only 404 or "No more questions left". It says "No more questions left" exactly when the drawn question is unplayed, and never answers exactly when it was played |
| Quiz.DivergesMeansNoIterationEnds | backend/flaskr/__init__.py:207-216 | when the handler is classed as diverging, its loop is still active after every number of iterations |
| Quiz.EmptyBodyIsNotFound | backend/flaskr/__init__.py:223-224 | the body `{}` is answered 404, not 400 |
| Quiz.Unseen | backend/flaskr/__init__.py:177-182 | the unplayed questions are exactly the pool's questions that `previous_questions` does not list |
| Quiz.PlayQuizIntended | backend/flaskr/__init__.py:177-182 | corrected selector. It answers 404 exactly when the body does not parse or `previous_questions` is not a list or dict; an empty pool, which the handler as written answers 404, counts as exhausted. Otherwise 200: "No more questions left" exactly when every pool question has been played, else an unplayed question of the pool |
| Quiz.IntendedCanServeEveryUnseen | backend/flaskr/__init__.py:177-182 | every unplayed question of the pool is served by some draw |
| Quiz.WrittenExhaustionIsPremature | backend/flaskr/__init__.py:205-216 | whenever the handler as written reports no more questions, an unplayed question existed and the corrected selector serves one |
| Quiz.ExhaustedPoolSpinsInsteadOfReporting | backend/flaskr/__init__.py:205-216 | when every question of a non-empty pool has been played, the handler as written never answers, while the corrected selector reports exhaustion |
| Quiz.OneQuestionExample | backend/flaskr/__init__.py:185-221 | with one question and category id 0, the handler as written says "no more questions" with nothing played and spins once it is played; the corrected selector serves it, then reports exhaustion |

## Left out

- CORS setup and the `after_request` header injection (lines 31-40): framework plumbing, with no decision logic.
- Routing: which URL and method reach which handler, and Flask raising 400 or 405 itself. The error mapper's bodies are modelled, but not who triggers them.
- A request body that is not valid JSON, for create and search: `request.get_json()` sits outside the `try` there (lines 111 and 137), so Flask answers 400. The model has no such body; the nearest value, `Null`, gives 422 in `Handlers.CreateQuestion` and 500 in `Handlers.SearchQuestions`.
- Row order: the model takes the store's order as the database's query order, which SQL does not fix.
- The SQL comparisons `category = value` and `ilike '%term%'`: case folding, wildcard characters, and coercion between text and numbers are database behaviour. They are abstract predicates.
- `Question.format()`: the `models` module is not part of this model. Pages hold the rows themselves.
- Insert-time validation and failure: also defined in `models`, so an insert failure is a flag passed to the create handler.
- Failure of `delete()` and read-query failures inside `try` blocks: the handlers' `except` clauses for database errors are not modelled. Only the exceptions the handler code itself raises are.
- The id sequence: a failed insert leaves `nextId` unchanged. A real database sequence may skip a value.
- `random.randint`: replaced by the `pick` parameter. Uniformity of the draw is not modelled.
- Request parsing: the `page` parameter arrives already parsed as an int (the `type=int` fallback to 1 is not modelled). `get_json()` returning None is the value `Null`; a body that fails to parse is covered by the line above for create and search, and inside the quiz handler's `try` it is the same 404 as `Null`. JSON numbers with a fractional part are not modelled.
- Unhandled exceptions reach the 500 handler, which is Flask's behaviour outside debug mode. A debug server would show a traceback instead.
- Handlers.SearchQuestions: the search term is passed to the `ilike` predicate as the JSON value; the string `f'%{term}%'` that Python builds is not modelled.
- Quiz.PlayQuiz: divergence is decided after one loop iteration. `Quiz.DivergesMeansNoIterationEnds` shows that every later iteration is the same.
- `backend/test_flaskr.py`: it needs a live PostgreSQL database. It serves as evidence only, and its disagreements with the code are listed above.

## Findings

| source | as written | input that shows it | evidently intended | confidence | as-written member | corrected member |
|---|---|---|---|---|---|---|
| backend/flaskr/__init__.py:207-216 | the loop's branches are inverted: an unplayed pick returns "No more questions left", and a played pick is replaced by the same `questions[randomizerIndex]` forever, so no question is ever served | one question with id 1 and `quiz_category` id 0: with `previous_questions` `[]` the answer is "No more questions left"; with `[1]` the request never returns | serve an unplayed question of the pool, and report exhaustion only when all have been played (lines 177-182, 205-206) | high (not executed) | Quiz.PlayQuiz | Quiz.PlayQuizIntended |
| backend/flaskr/__init__.py:14-19 | a page number below 1 becomes a negative slice bound, which Python counts from the end of the list | 15 questions and `GET /questions?page=-1`: 200 with the first five questions instead of 404 | pages outside 1 to the last page are out of bounds and answered 404 (comment at line 71) | medium (not executed) | Handlers.NegativePageListed | Paging.PageInRange |

The handlers model the code as written. The two corrected members state the
behaviour the comments describe, and the lemmas beside them compare it with
the as-written behaviour.
