/** The handlers of `starter/backend/flaskr/__init__.py` over the abstract
    store. They share pagination, the store and the error handlers with the
    other variant but differ in where exceptions are caught, which decides
    the status a failure is answered with. */
module Starter {
  import opened Basics
  import opened Http
  import opened Store
  import opened Pagination
  import opened Text
  import opened Api
  import opened Quiz
  import opened Queries
  import Backend

  /** GET /categories: `{categories: [category, ...]}`. */
  datatype CategoryListBody = CategoryListBody(categories: seq<Category>)

  /** POST /questions: `{question: id, questions, total_questions}`. */
  datatype CreatedPageBody = CreatedPageBody(question: int, questions: seq<Question>, total: nat)

  /** GET /categories/<id>/questions: `{questions, total_questions}`. */
  datatype CategoryQuestionsBody = CategoryQuestionsBody(questions: seq<Question>, total: nat)

  /** GET /categories: every category row, each once. */
  function GetCategories(db: Db): (r: Reply<CategoryListBody>)
    requires Valid(db)
    ensures r.Ok?
    ensures forall c :: c in r.body.categories <==> c in db.categories
    ensures |r.body.categories| == |db.categories|
  {
    Ok(CategoryListBody(db.categories))
  }

  /** Both variants report the same categories: the list here and the
      id-to-type map of the other variant describe one table. */
  lemma CategoriesAgree(db: Db)
    requires Valid(db)
    ensures var list, types := GetCategories(db).body.categories, Backend.GetCategories(db).body.categories;
            && |list| == |types|
            && (forall c | c in list :: c.id in types && types[c.id] == c.kind)
  {
  }

  /** GET /questions?page=N: the same reply as the other variant. */
  function GetQuestions(db: Db, pageArg: Option<int>): (r: Reply<QuestionsBody>)
    requires Valid(db)
    ensures r == Backend.GetQuestions(db, pageArg)
  {
    Ok(QuestionsBody(Paginate(QuestionsById(db), PageNumber(pageArg)), CategoryTypes(db.categories), Count(db)))
  }

  /** The body of DELETE /questions/<id> inside its `try`: a missing id
      reaches `abort(404)`. */
  function DeleteAttempt(db: Db, id: nat, pageArg: Option<int>): (r: Effect<DeletedBody, Db>)
    requires Valid(db)
    ensures Valid(r.after)
    ensures r.after.categories == db.categories
    ensures r.reply.Err? <==> id !in Table(db)
    ensures r.reply.Err? ==> r.reply.failure == NotFound && r.after == db
    ensures r.reply.Ok? ==>
              && r.reply.body.deleted == id
              && Table(r.after) == Table(db) - {id}
              && r.reply.body.total == Count(db) - 1
              && r.reply.body.questions == Paginate(QuestionsById(r.after), PageNumber(pageArg))
  {
    match Find(db, id)
    case None => Effect(Err(NotFound), db)
    case Some(_) =>
      var db' := Delete(db, id);
      Effect(Ok(DeletedBody(id, Paginate(QuestionsById(db'), PageNumber(pageArg)), Count(db'))), db')
  }

  /** DELETE /questions/<id>, as written: the bare `except` also catches the
      `abort(404)`, so a missing id is answered with 422 and 404 never
      leaves the handler. The outcome is the other variant's, for every
      input. */
  function DeleteQuestion(db: Db, id: nat, pageArg: Option<int>): (r: Effect<DeletedBody, Db>)
    requires Valid(db)
    ensures r.reply.Err? <==> id !in Table(db)
    ensures r.reply != Err(NotFound)
    ensures r == Backend.DeleteQuestion(db, id, pageArg)
  {
    var attempt := DeleteAttempt(db, id, pageArg);
    Effect(CatchAll(attempt.reply), attempt.after)
  }

  /** The `abort(404)` of a missing id is swallowed. */
  lemma DeleteMissingAnswers422(db: Db, id: nat, pageArg: Option<int>)
    requires Valid(db)
    requires id !in Table(db)
    ensures DeleteAttempt(db, id, pageArg).reply == Err(NotFound)
    ensures DeleteQuestion(db, id, pageArg).reply == Err(Unprocessable)
    ensures DeleteQuestionIntended(db, id, pageArg).reply == Err(NotFound)
  {
  }

  /** DELETE /questions/<id> as the explicit `abort(404)` means it: a
      missing id is answered with 404, any other failure with 422. */
  function DeleteQuestionIntended(db: Db, id: nat, pageArg: Option<int>): (r: Effect<DeletedBody, Db>)
    requires Valid(db)
    ensures Valid(r.after)
    ensures r.after.categories == db.categories
    ensures r.reply.Err? <==> id !in Table(db)
    ensures r.reply.Err? ==> r.reply.failure == NotFound && r.after == db
    ensures r.reply.Ok? ==>
              && r.reply.body.deleted == id
              && Table(r.after) == Table(db) - {id}
              && r.reply.body.total == Count(db) - 1
              && r.reply.body.questions == Paginate(QuestionsById(r.after), PageNumber(pageArg))
  {
    DeleteAttempt(db, id, pageArg)
  }

  /** POST /questions. The store assigns the new key (`freshId`) and may
      reject the row (`accepted`); nothing here is inside a `try`, so a
      rejection is an uncaught exception, answered with 500. */
  function AddQuestion(db: Db, form: NewQuestion, accepted: bool, freshId: int, pageArg: Option<int>): (r: Effect<CreatedPageBody, Db>)
    requires Valid(db)
    requires freshId !in Table(db)
    ensures Valid(r.after)
    ensures r.after.categories == db.categories
    ensures r.reply.Ok? <==> accepted
    ensures r.reply.Err? ==> r.reply.failure == Internal && r.after == db
    ensures r.reply.Ok? ==>
              && r.reply.body.question == freshId
              && r.reply.body.question !in Table(db)
              && Table(r.after) == Table(db)[freshId := Row(form, freshId)]
              && r.reply.body.total == Count(db) + 1
              && r.reply.body.questions == Paginate(QuestionsById(r.after), PageNumber(pageArg))
  {
    if !accepted then Effect(Err(Internal), db)
    else
      var db' := Insert(db, Row(form, freshId));
      Effect(Ok(CreatedPageBody(freshId, Paginate(QuestionsById(db'), PageNumber(pageArg)), Count(db'))), db')
  }

  /** POST /search. `request.get_json()['searchTerm']` raises for an absent
      term (500); any present term, the empty one included, is searched
      for. */
  function SearchQuestion(db: Db, term: Option<string>): (r: Reply<SearchBody>)
    requires Valid(db)
    requires term.Some? ==> NoWildcards(term.value)
    ensures r.Err? <==> term.None?
    ensures r.Err? ==> r.failure == Internal
    ensures r.Ok? ==>
              && (forall q | q in r.body.questions :: q.id in Table(db) && Table(db)[q.id] == q && Contains(q.question, term.value))
              && (forall k | k in Table(db) && Contains(Table(db)[k].question, term.value) :: Table(db)[k] in r.body.questions)
              && (forall i, j | 0 <= i < j < |r.body.questions| :: r.body.questions[i].id < r.body.questions[j].id)
              && r.body.total == Count(db)
  {
    match term
    case None => Err(Internal)
    case Some(t) => Ok(SearchBody(Matching(db, t), Count(db)))
  }

  /** An empty term matches every question: the whole table comes back. */
  lemma EmptyTermReturnsAll(db: Db)
    requires Valid(db)
    ensures SearchQuestion(db, Some("")) == Ok(SearchBody(QuestionsById(db), Count(db)))
  {
    var listing := QuestionsById(db);
    forall i | 0 <= i < |listing| ensures Contains(listing[i].question, "") {
      EmptyTermMatchesAll(listing[i].question);
    }
    FilterAll(listing, (q: Question) => Contains(q.question, ""));
  }

  /** Where the other variant answers, both search the same way; they differ
      only on an empty term (404 there, every question here) and an absent
      one (404 there, 500 here). */
  lemma SearchAgreesOnNonEmptyTerms(db: Db, term: string)
    requires Valid(db)
    requires term != "" && NoWildcards(term)
    ensures SearchQuestion(db, Some(term)) == Backend.SearchQuestion(db, Some(term))
  {
  }

  /** GET /categories/<id>/questions, as written: it calls
      `paginate_selection`, a name defined nowhere, so every request ends
      in a NameError and the 500 envelope. */
  function QuestionsByCategory(db: Db, category: nat, pageArg: Option<int>): (r: Reply<CategoryQuestionsBody>)
    ensures r == Err(Internal)
  {
    Err(Internal)
  }

  /** GET /categories/<id>/questions with the helper that exists,
      `paginate_questions`: a page of that category's questions and the
      global count. */
  function QuestionsByCategoryIntended(db: Db, category: nat, pageArg: Option<int>): (r: Reply<CategoryQuestionsBody>)
    requires Valid(db)
    ensures r.Ok?
    ensures r.body.total == Count(db)
    ensures r.body.questions == Paginate(InCategory(db, category), PageNumber(pageArg))
    ensures |r.body.questions| <= PageSize
    ensures forall q | q in r.body.questions :: q.category == category && q.id in Table(db)
  {
    Ok(CategoryQuestionsBody(Paginate(InCategory(db, category), PageNumber(pageArg)), Count(db)))
  }

  /** The endpoint fails even for a category full of questions, where the
      intended handler answers with them. */
  lemma CategoryEndpointAlwaysFails(db: Db, category: nat, pageArg: Option<int>)
    requires Valid(db)
    ensures Status(QuestionsByCategory(db, category, pageArg)) == 500
    ensures Status(QuestionsByCategoryIntended(db, category, pageArg)) == 200
  {
  }

  /** POST /quizzes. A missing `quiz_category` leaves `quiz` unbound, a
      missing id raises a KeyError, and an empty pool reaches
      `abort(422)`; all of it happens inside the `try`, so every failure is
      answered with 422. Otherwise the already asked questions are dropped
      and one of the rest is picked, or `{question: False}` ends the quiz. */
  function QuizTurn(table: seq<Question>, previous: seq<int>, category: CategoryRef, draw: nat): (r: Reply<QuizBody>)
    ensures r.Err? <==> !category.WithId? || Pool(table, category.id) == []
    ensures r.Err? ==> r.failure == Unprocessable
    ensures r.Ok? ==> (r.body.Finished? <==> forall q | q in Pool(table, category.id) :: q.id in previous)
    ensures r.Ok? && r.body.Next? ==>
              && r.body.question in table
              && r.body.question.id !in previous
              && (category.id != AllCategories ==> r.body.question.category == category.id)
  {
    CatchAll(
      match category
      case Absent => Err(Internal)
      case WithoutId => Err(Internal)
      case WithId(c) =>
        var pool := Pool(table, c);
        if pool == [] then Err(Unprocessable) else Ok(Select(pool, previous, draw)))
  }

  /** Any question of the pool not yet asked is what some draw returns. */
  lemma {:induction false} EveryUnaskedQuestionCanComeUp(table: seq<Question>, previous: seq<int>, c: int, q: Question)
    requires q in Pool(table, c) && q.id !in previous
    ensures exists draw: nat :: QuizTurn(table, previous, WithId(c), draw) == Ok(Next(q))
  {
    var selected := Unasked(Pool(table, c), previous);
    EveryCandidateReachable(selected, q);
    var draw: nat :| Choose(selected, draw) == q;
    assert QuizTurn(table, previous, WithId(c), draw) == Ok(Next(q));
  }

  /** With every id already asked, a non-empty table ends the quiz for
      "all categories". */
  lemma AllAskedEndsQuiz(table: seq<Question>, previous: seq<int>, draw: nat)
    requires table != []
    requires forall q | q in table :: q.id in previous
    ensures QuizTurn(table, previous, WithId(AllCategories), draw) == Ok(Finished)
  {
  }

  /** With nothing asked yet, a category holding a question yields a
      question of that category. */
  lemma FirstTurnPicksFromCategory(table: seq<Question>, c: int, draw: nat)
    requires c != AllCategories
    requires exists q :: q in table && q.category == c
    ensures QuizTurn(table, [], WithId(c), draw).Ok?
    ensures QuizTurn(table, [], WithId(c), draw).body.Next?
    ensures QuizTurn(table, [], WithId(c), draw).body.question.category == c
  {
    var q :| q in table && q.category == c;
    assert q in Pool(table, c);
  }

  /** On a non-empty pool this variant turns exactly as the other
      variant's loop was meant to. */
  lemma QuizMatchesIntendedLoop(table: seq<Question>, previous: seq<int>, c: int, draw: nat)
    requires Pool(table, c) != []
    ensures QuizTurn(table, previous, WithId(c), draw) == Backend.QuizTurnIntended(table, previous, WithId(c), draw)
  {
  }
}
