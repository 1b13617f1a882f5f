# Trivia API: a Dafny model of its request logic

The Trivia API is a Flask/SQLAlchemy backend for a trivia game. Its routes
list categories, page through questions, delete, create and search questions,
list the questions of a category, and serve one quiz turn. The repository has
two variants of the application: `backend/flaskr/__init__.py` and
`starter/backend/flaskr/__init__.py`. They offer the same operations, but
several routes differ in path or body shape:

- GET /categories answers a list in the starter and an id-to-type map in the
  backend.
- POST /questions answers `{question, questions, total_questions}` in the
  starter and `{created}` in the backend.
- Search is routed at `/search` in the starter and at `/questions/search` in
  the backend.
- The starter's category route sends no `current_category`.

The variants also differ in where exceptions are caught, and therefore in the
status a failure is answered with.

This project models the logic that sits between the routing and the ORM:

- the page window (`paginate_questions`, with Python slice semantics);
- quiz pool construction and question selection;
- the outcome of every handler, either a body sent with 200 or a failure
  answered by one of the four error handlers;
- the uniform error envelope `{success: false, error: code}`.

The database is an abstract store. The question and category tables are held
as rows in primary-key order. The map from id to row, which is what the
handlers look rows up in, is a view of those rows (`Store.Table`). Each
handler is a pure function that returns `Ok(body)` or `Err(failure)`. A
handler that writes also returns the store as it is after the request
(`Http.Effect`).

Modules:

- `Basics`: `Option`, and an order-keeping `Filter`.
- `Http`: failures, status codes, error handlers and envelope, and the
  `try/except: abort(422)` wrapper.
- `PySlice`: `s[start:end]` with Python's rules for negative and
  out-of-range bounds.
- `Pagination`: `QUESTIONS_PER_PAGE`, the page argument, and the window.
- `Store`: rows, the id map, the id-ordered listing, lookup, delete and
  insert.
- `Text`: the case-insensitive substring test behind `ilike('%term%')`.
- `Queries`: the text search and category filter over the table.
- `Api`: response bodies and the create payload shared by both variants.
- `Quiz`: pool, unasked questions, and the injected random choice.
- `Backend`: the handlers of `backend/flaskr/__init__.py`.
- `Starter`: the handlers of `starter/backend/flaskr/__init__.py`.

Three behaviours a client would not expect; the model follows the code:

- Deleting a missing non-negative id is answered with 422 in both variants,
  not 404. A negative id does not match the `<int:...>` route converter and
  gets the 404 envelope before any handler runs.
- The starter variant's search answers an empty term with every question, not
  404.
- The backend variant's quiz turn looks only at the first question of the
  pool.

The test files also expect behaviour the code does not have. The model
follows the code here too:

- `backend/test_flaskr.py:88-96` expects 422 for `?page=5000`. The code sends
  200 with an empty page (see `Backend.GetQuestions`).
- `backend/test_flaskr.py:107-113` expects 422 for an unknown category. The
  code sends 200 with an empty page (see `Backend.QuestionsByCategory`).
- `backend/test_flaskr.py` (lines 95, 104, 113, 122 and 132) expects
  `message` and `status_message` keys that no handler sends.
- Both test files POST to a GET-only route (`/categories/16/questions`).

## Model

| member | source | states |
|---|---|---|
| PySlice.Slice | backend/flaskr/__init__.py:21 | the result has length max(0, hi - lo), where lo and hi are the start and end normalised as Python does (negative counts from the end, then clamped to the length); element k of the result is element lo + k of the source |
| PySlice.SliceKeepsExactlyTheWindow | backend/flaskr/__init__.py:21 | a source position is kept exactly when it lies between the normalised bounds, and it lands at its offset from the lower bound |
| PySlice.SliceIsContiguous | backend/flaskr/__init__.py:21 | a slice is one contiguous, in-order run of its source |
| Pagination.PageNumber | backend/flaskr/__init__.py:16 | the page is the argument when it parses as an integer, else 1 |
| Pagination.DefaultPageIsFirst | backend/flaskr/__init__.py:14-23 | a request without a usable `page` argument gets the first ten elements, or all of them when there are fewer |
| Pagination.Paginate | backend/flaskr/__init__.py:14-23 | at most 10 elements, all taken from the input; for page >= 1, the in-order run from index (page-1)*10 to min(page*10, len); empty past the end; page 0 is empty; a negative page -k is the run of at most ten elements ending 10*k before the end, and is empty when the list has no more than 10*k elements |
| Pagination.PagesArePrefix | backend/flaskr/__init__.py:17-21 | pages 1..n laid end to end are exactly the first min(10n, len) elements: nothing is lost, repeated or reordered |
| Pagination.PageOfIndex | backend/flaskr/__init__.py:17-21 | element i sits on page i/10 + 1 at offset i%10 |
| Pagination.PagesCoverAll | backend/flaskr/__init__.py:17-21 | the pages up to ceil(len/10) reproduce the whole list |
| Http.HandlerFor | backend/flaskr/__init__.py:164-190 | exactly the statuses 400, 404, 422 and 500 have a registered error handler, and the handler is the failure of that code |
| Http.ErrorResponse | starter/backend/flaskr/__init__.py:180-206 | each registered status is answered with the body {success: false, error: status} and that same status; other statuses get no envelope |
| Http.Status | backend/flaskr/__init__.py:164-190 | a reply goes out with 200 exactly when it succeeded; a failure goes out with a status whose handler is that failure |
| Http.EnvelopeRoundTrip | backend/flaskr/__init__.py:164-190 | a failure's code selects that failure's handler, which echoes the code as status and in the body |
| Http.CatchAll | starter/backend/flaskr/__init__.py:95-96 | a body inside `try: ... except: abort(422)` keeps its success; every failure it raises, another abort included, becomes 422 |
| Store.QuestionsById | backend/flaskr/__init__.py:52 | every row of the table, each once, in strictly ascending id order, with as many elements as the table has rows |
| Store.Find | backend/flaskr/__init__.py:70 | `query.get(id)` yields a row exactly when the id is in the table, and then it is the row stored under it |
| Store.Count | backend/flaskr/__init__.py:80 | `len(Question.query.all())` is the number of distinct keys in the question table |
| Store.Delete | backend/flaskr/__init__.py:72 | the id map loses exactly that key, the categories are unchanged, and the count drops by one |
| Store.Insert | backend/flaskr/__init__.py:99 | the id map gains exactly the new key with the new row, the categories are unchanged, and the count grows by one |
| Store.CategoryTypes | backend/flaskr/__init__.py:60-61 | the category map has exactly the category ids as keys, each mapped to its type, with one entry per category |
| Text.Contains | backend/flaskr/__init__.py:115-116 | `ilike('%term%')` matches only when the term fits in the text, and the empty term matches every text |
| Text.TermCaseIgnored | backend/flaskr/__init__.py:115-116 | the search answer is the same for a term and for its lower-cased form |
| Text.EmptyTermMatchesAll | starter/backend/flaskr/__init__.py:129 | the pattern `'%%'` matches every text |
| Text.OccurrenceIsFound | backend/flaskr/__init__.py:115-116 | a term that literally occurs in a text is found in it |
| Queries.Matching | backend/flaskr/__init__.py:115-116 | the returned questions are exactly the stored questions whose text contains the term, case ignored, each once in id order |
| Queries.InCategory | backend/flaskr/__init__.py:129-130 | the returned questions are exactly the stored questions of that category, each once in id order |
| Quiz.Pool | backend/flaskr/__init__.py:146-149 | for id 0 the pool is the whole table; otherwise a question is in it exactly when it is in the table and has that category; a category every row belongs to pools the whole table, in table order; a non-empty pool starts with the first row of the table that belongs to the category |
| Quiz.Unasked | starter/backend/flaskr/__init__.py:163-166 | a question is kept exactly when it is in the pool and its id is not among the previous questions |
| Quiz.EveryCandidateReachable | starter/backend/flaskr/__init__.py:168 | every candidate of `random.choice` is what some draw returns |
| Quiz.Choose | starter/backend/flaskr/__init__.py:168 | `random.choice(selected)` returns one of the candidates, whatever the draw |
| Quiz.Select | starter/backend/flaskr/__init__.py:163-175 | a question is returned exactly when the pool holds an unasked one, and it is an unasked pool question; otherwise the quiz ends |
| Api.RowRoundTrip | backend/flaskr/__init__.py:96-98 | the row `Question(...)` builds gives back exactly the posted question, answer, category and difficulty under the assigned key, and a row is determined by those fields and its key |
| Backend.GetCategories | backend/flaskr/__init__.py:41-48 | always succeeds; keys are exactly the category ids, each mapped to its type |
| Backend.GetQuestions | backend/flaskr/__init__.py:50-65 | always succeeds, even past the last page; the window of the requested page (1 when absent) over the id-ordered table (at most 10 stored questions, empty past the end), every category id mapped to its type, and the unpaginated count |
| Backend.DeleteQuestion | backend/flaskr/__init__.py:67-83 | fails exactly when the id is missing, then with 422 and the store untouched; otherwise it echoes the id, removes exactly that row, reports the old count minus one, leaves the categories unchanged, and lists the requested page of the remaining questions, none of them the deleted one |
| Backend.DeleteTwiceFails | backend/flaskr/__init__.py:67-83 | deleting the same id twice succeeds and then fails with 422 |
| Backend.AddQuestion | backend/flaskr/__init__.py:85-107 | succeeds exactly when the store accepts the row; then it reports the new, previously unused id, adds exactly that row, leaves the categories unchanged, and the count grows by one; a rejection is 422 with the store untouched |
| Backend.SearchQuestion | backend/flaskr/__init__.py:109-124 | an absent or empty term fails with 404; otherwise exactly the stored questions whose text contains the term, case ignored, each once in increasing id order, and the global unfiltered count |
| Backend.SearchSingleMatch | backend/flaskr/__init__.py:109-124 | a term found in exactly one question's text returns exactly that question |
| Backend.QuestionsByCategory | backend/flaskr/__init__.py:126-137 | always succeeds for every id the route accepts (non-negative); the requested page of at most 10 questions, all of that category, the category echoed, and the global count |
| Backend.QuizTurn | backend/flaskr/__init__.py:139-162 | fails with 500 when the category or its id is missing or the pool is empty; otherwise it returns the first pool question if that one is unasked, and ends the quiz exactly when that one was asked |
| Backend.QuizEndsWhileQuestionsRemain | backend/flaskr/__init__.py:151-162 | with pool [q1, q2] and q1 asked, the turn ends the quiz although q2 was never asked |
| Backend.EmptyPoolFails | backend/flaskr/__init__.py:151-162 | a category without questions fails with 500, where the intended loop ends the quiz |
| Backend.QuizTurnIntended | backend/flaskr/__init__.py:139-162 | fails (500) exactly when the category or its id is missing; otherwise it returns a question exactly when the pool holds an unasked one, and that question is in the table, unasked and of the category |
| Starter.GetCategories | starter/backend/flaskr/__init__.py:43-51 | always succeeds, listing every category row once |
| Starter.CategoriesAgree | starter/backend/flaskr/__init__.py:43-51 | the list here and the other variant's id-to-type map describe the same categories |
| Starter.GetQuestions | starter/backend/flaskr/__init__.py:54-69 | the reply is the other variant's reply for every store and page |
| Starter.DeleteAttempt | starter/backend/flaskr/__init__.py:73-94 | inside the `try`, a missing id is a 404 failure with the store untouched; a present id is removed exactly, the categories stay, the total is the old count minus one, and the requested page of the remaining questions is listed |
| Starter.DeleteQuestion | starter/backend/flaskr/__init__.py:71-96 | fails exactly when the id is missing, never with 404, and agrees with the other variant's delete on every input |
| Starter.DeleteMissingAnswers422 | starter/backend/flaskr/__init__.py:74-77 | for a missing id, the 404 raised inside the `try` leaves as 422, where the intended handler answers 404 |
| Starter.DeleteQuestionIntended | starter/backend/flaskr/__init__.py:74-77 | fails exactly when the id is missing, then with 404 and the store untouched; otherwise it removes exactly that row, leaves the categories unchanged, and lists the requested page of the remaining questions |
| Starter.AddQuestion | starter/backend/flaskr/__init__.py:100-122 | succeeds exactly when the store accepts the row; then it reports the new id, adds exactly that row, leaves the categories unchanged, the total is the old count plus one, and it lists the requested page of the new table; a rejection is uncaught and answered with 500 |
| Starter.SearchQuestion | starter/backend/flaskr/__init__.py:126-135 | fails with 500 exactly when the term is absent; otherwise exactly the stored questions whose text contains the term, case ignored, each once in increasing id order, and the global count |
| Starter.EmptyTermReturnsAll | starter/backend/flaskr/__init__.py:128-130 | the empty term returns the whole table |
| Starter.SearchAgreesOnNonEmptyTerms | starter/backend/flaskr/__init__.py:126-135 | for a non-empty term both variants return the same reply |
| Starter.QuestionsByCategory | starter/backend/flaskr/__init__.py:137-146 | every request fails with the 500 envelope |
| Starter.QuestionsByCategoryIntended | starter/backend/flaskr/__init__.py:137-146 | always succeeds, with a page of at most 10 questions of the category and the global count |
| Starter.CategoryEndpointAlwaysFails | starter/backend/flaskr/__init__.py:141 | the route answers 500 for every category, where the intended handler answers 200 |
| Starter.QuizTurn | starter/backend/flaskr/__init__.py:149-177 | fails with 422 exactly when the category or its id is missing or the pool is empty; otherwise it ends the quiz exactly when every pool question was asked, and a returned question is in the table, unasked and of the category |
| Starter.EveryUnaskedQuestionCanComeUp | starter/backend/flaskr/__init__.py:163-171 | every unasked pool question is returned for some draw |
| Starter.AllAskedEndsQuiz | starter/backend/flaskr/__init__.py:172-175 | with category 0 and every id asked, a non-empty table ends the quiz |
| Starter.FirstTurnPicksFromCategory | starter/backend/flaskr/__init__.py:156-171 | with nothing asked yet, a category that holds a question yields a question of that category |
| Starter.QuizMatchesIntendedLoop | starter/backend/flaskr/__init__.py:161-175 | on a non-empty pool this turn equals the other variant's intended turn |

## Left out

- Flask application construction, route registration, CORS and the
  `after_request` header injection. They are framework plumbing.
- Request parsing. Handlers receive the page argument (`Option<int>`,
  turned into a page by `Pagination.PageNumber`), the search term
  (`Option<string>`), the quiz category (`Quiz.CategoryRef`) and the
  previous ids (`seq<int>`) already decoded. A missing JSON body (an
  `AttributeError` on `body.get`, answered with 500) is not modelled.
  Neither are non-string search terms, non-integer ids such as the string
  `'1'` the backend test sends, or an explicit `null` for
  `previous_questions`.
- Pagination.PageNumber: models `type=int` only as "an integer, or absent".
  How Werkzeug parses the text of the argument is not modelled.
- Route matching. The `<int:question_id>` and `<int:category_id>`
  converters accept only digit strings, so the handlers take those ids as
  `nat`. A request with any other id never reaches a handler and gets the
  404 envelope; routing itself is not modelled.
- SQLAlchemy and `models.py`, which is not part of this model. The key a
  new row receives is a parameter (`freshId`). The only assumption is that
  the key is unused. Whether the store accepts a row is also a parameter
  (`accepted`). It covers missing or malformed fields and constraint
  violations. The order of the starter's positional `Question(...)`
  constructor arguments is not modelled.
- Backend.AddQuestion: the request's fields are taken as present and
  well-typed. A missing field reaches the model only through `accepted`.
- Starter.AddQuestion: same as Backend.AddQuestion.
- Row order of queries without `ORDER BY`. The search, the category filter
  and the category listing are modelled in id order, which the database does
  not promise. The quiz handlers take the table in whatever order the store
  returns it (`table`), because the backend's turn depends on that order.
  The backend's `ORDER BY type` for categories is not observable in a map.
- Starter.QuizTurn: `filter_by(Category=...)` at
  starter/backend/flaskr/__init__.py:160 is modelled as a filter on the
  category column. Whether SQLAlchemy raises for the capitalised keyword is
  not modelled. If it does, the `except` answers 422 for every non-zero
  category.
- Backend.SearchQuestion: SQL `ILIKE` pattern characters (`%`, `_`, `\`)
  in the term are not modelled. Terms are required to be free of them
  (`Text.NoWildcards`). Case folding is ASCII only.
- Starter.SearchQuestion: same limits as Backend.SearchQuestion.
- `random.choice` is an injected draw (`draw: nat`, taking element
  `draw % len`). Every statement about a quiz turn holds for every draw.
  `Quiz.EveryCandidateReachable` shows that each candidate can be drawn.
  Uniformity is not modelled.
- JSON serialisation and `Question.format()`. A question in a body stands
  for its formatted object. The response keys that carry a stray space
  (`'current_category '`, `'current categories '`) are always `None` and are
  not modelled.
- Transactions, concurrent requests and rollback after a failed write. The
  model takes a failed write to leave the store unchanged.
- Both test files. They drive a live database over HTTP and are used only to
  note where their expectations differ from the code (see above).

## Findings

| source | as written | input that shows it | evidently intended | confidence | as-written member | corrected member |
|---|---|---|---|---|---|---|
| backend/flaskr/__init__.py:151-162 | the `if len(selected)` test is indented inside the `for` loop, so the turn decides on the first pool question alone | pool [q1, q2] of category 1, previous_questions [q1.id] | drop every asked question, then pick among the rest (here q2) | not executed; high | Backend.QuizTurn, Backend.QuizEndsWhileQuestionsRemain | Backend.QuizTurnIntended |
| backend/flaskr/__init__.py:151-162 | an empty pool never enters the loop, and the view returns None, which Flask answers with 500 | a category id with no questions | `{question: False}`, ending the quiz | not executed; high | Backend.QuizTurn, Backend.EmptyPoolFails | Backend.QuizTurnIntended |
| starter/backend/flaskr/__init__.py:141 | the handler calls `paginate_selection`, which is defined nowhere, so every request raises NameError and gets 500 | any category id | `paginate_questions`, as in the other variant | not executed; high | Starter.QuestionsByCategory, Starter.CategoryEndpointAlwaysFails | Starter.QuestionsByCategoryIntended |
| starter/backend/flaskr/__init__.py:74-96 | the `abort(404)` for a missing id is raised inside the `try` and caught by the bare `except`, which answers 422 | DELETE of an id the store does not hold | 404 | not executed; medium | Starter.DeleteQuestion, Starter.DeleteMissingAnswers422 | Starter.DeleteQuestionIntended |
