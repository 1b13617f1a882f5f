/** The handlers of `backend/flaskr/__init__.py` over the abstract store.
    Each returns the reply the route sends (a body for status 200, or the
    failure whose error handler answers) and, when it writes, the store
    after the request. */
module Backend {
  import opened Basics
  import opened Http
  import opened Store
  import opened Pagination
  import opened Text
  import opened Api
  import opened Quiz
  import opened Queries

  /** GET /categories: `{categories: {id: type}}`. */
  datatype CategoriesBody = CategoriesBody(categories: map<int, string>)

  /** POST /questions: `{created: id}`. */
  datatype CreatedBody = CreatedBody(created: int)

  /** GET /categories/<id>/questions: `{questions, current_category, total_questions}`. */
  datatype CategoryQuestionsBody = CategoryQuestionsBody(questions: seq<Question>, currentCategory: int, total: nat)

  /** GET /categories: every category, keyed by id, with its type. */
  function GetCategories(db: Db): (r: Reply<CategoriesBody>)
    requires Valid(db)
    ensures r.Ok?
    ensures forall k :: k in r.body.categories <==> k in CategoryIds(db.categories)
    ensures forall c | c in db.categories :: r.body.categories[c.id] == c.kind
  {
    Ok(CategoriesBody(CategoryTypes(db.categories)))
  }

  /** GET /questions?page=N: the page of the id-ordered table, all
      categories with their types, and the unpaginated count. Never fails,
      also for a page past the end. */
  function GetQuestions(db: Db, pageArg: Option<int>): (r: Reply<QuestionsBody>)
    requires Valid(db)
    ensures r.Ok?
    ensures r.body.questions == Paginate(QuestionsById(db), PageNumber(pageArg))
    ensures |r.body.questions| <= PageSize
    ensures forall q | q in r.body.questions :: q.id in Table(db) && Table(db)[q.id] == q
    ensures PageNumber(pageArg) >= 1 && PageStart(PageNumber(pageArg)) >= Count(db) ==> r.body.questions == []
    ensures r.body.total == Count(db) == |Table(db)|
    ensures forall k :: k in r.body.categories <==> k in CategoryIds(db.categories)
    ensures forall c | c in db.categories :: r.body.categories[c.id] == c.kind
  {
    var listing := QuestionsById(db);
    var page' := Paginate(listing, PageNumber(pageArg));
    Ok(QuestionsBody(page', CategoryTypes(db.categories), Count(db)))
  }

  /** DELETE /questions/<id>. `Question.query.get` yields None for a missing
      id, `None.delete()` raises, and the bare `except` answers 422; the
      store is then untouched. Otherwise exactly that row goes. */
  function DeleteQuestion(db: Db, id: nat, pageArg: Option<int>): (r: Effect<DeletedBody, Db>)
    requires Valid(db)
    ensures Valid(r.after)
    ensures r.after.categories == db.categories
    ensures r.reply.Err? <==> id !in Table(db)
    ensures r.reply.Err? ==> r.reply.failure == Unprocessable && r.after == db
    ensures r.reply.Ok? ==>
              && r.reply.body.deleted == id
              && Table(r.after) == Table(db) - {id}
              && r.reply.body.total == Count(db) - 1
              && r.reply.body.questions == Paginate(QuestionsById(r.after), PageNumber(pageArg))
              && (forall q | q in r.reply.body.questions :: q.id != id && q.id in Table(db))
  {
    match Find(db, id)
    case None => Effect(Err(Unprocessable), db)
    case Some(_) =>
      var db' := Delete(db, id);
      var page' := Paginate(QuestionsById(db'), PageNumber(pageArg));
      Effect(Ok(DeletedBody(id, page', Count(db'))), db')
  }

  /** Deleting is not idempotent: the second delete of an id fails. */
  lemma DeleteTwiceFails(db: Db, id: nat, pageArg: Option<int>)
    requires Valid(db)
    requires id in Table(db)
    ensures DeleteQuestion(db, id, pageArg).reply.Ok?
    ensures DeleteQuestion(DeleteQuestion(db, id, pageArg).after, id, pageArg).reply == Err(Unprocessable)
  {
  }

  /** POST /questions. The store assigns the new key (`freshId`) and may
      reject the row (`accepted`: a missing or malformed field, a violated
      constraint); a rejection is caught and answered with 422. */
  function AddQuestion(db: Db, form: NewQuestion, accepted: bool, freshId: int): (r: Effect<CreatedBody, Db>)
    requires Valid(db)
    requires freshId !in Table(db)
    ensures Valid(r.after)
    ensures r.after.categories == db.categories
    ensures r.reply.Ok? <==> accepted
    ensures r.reply.Err? ==> r.reply.failure == Unprocessable && r.after == db
    ensures r.reply.Ok? ==>
              && r.reply.body.created == freshId
              && r.reply.body.created !in Table(db)
              && Table(r.after) == Table(db)[freshId := Row(form, freshId)]
              && Count(r.after) == Count(db) + 1
  {
    if !accepted then Effect(Err(Unprocessable), db)
    else Effect(Ok(CreatedBody(freshId)), Insert(db, Row(form, freshId)))
  }

  /** POST /questions/search. An absent or empty `searchTerm` is falsy and
      answered with 404; otherwise the matching questions and the global,
      unfiltered count. */
  function SearchQuestion(db: Db, term: Option<string>): (r: Reply<SearchBody>)
    requires Valid(db)
    requires term.Some? ==> NoWildcards(term.value)
    ensures r.Err? <==> term.None? || term.value == ""
    ensures r.Err? ==> r.failure == NotFound
    ensures r.Ok? ==>
              && (forall q | q in r.body.questions :: q.id in Table(db) && Table(db)[q.id] == q && Contains(q.question, term.value))
              && (forall k | k in Table(db) && Contains(Table(db)[k].question, term.value) :: Table(db)[k] in r.body.questions)
              && (forall i, j | 0 <= i < j < |r.body.questions| :: r.body.questions[i].id < r.body.questions[j].id)
              && r.body.total == Count(db)
  {
    if term.None? || term.value == "" then Err(NotFound)
    else Ok(SearchBody(Matching(db, term.value), Count(db)))
  }

  /** A term found in exactly one question's text returns exactly that
      question. */
  lemma SearchSingleMatch(db: Db, term: string, id: int)
    requires Valid(db)
    requires term != "" && NoWildcards(term)
    requires id in Table(db)
    requires forall k | k in Table(db) :: Contains(Table(db)[k].question, term) <==> k == id
    ensures SearchQuestion(db, Some(term)) == Ok(SearchBody([Table(db)[id]], Count(db)))
  {
    var r := Matching(db, term);
    var q := Table(db)[id];
    assert q in r;
    forall x | x in r ensures x == q {
      assert x.id in Table(db) && Contains(Table(db)[x.id].question, term);
    }
    // the ids in r strictly increase, so a single row cannot occupy two places
    FirstTwoDiffer(r);
    assert |r| <= 1;
    assert r == [q];
  }

  /** Rows listed in strictly increasing id order are pairwise distinct; the
      first two are enough here. */
  lemma FirstTwoDiffer(r: seq<Question>)
    requires forall i, j | 0 <= i < j < |r| :: r[i].id < r[j].id
    ensures |r| >= 2 ==> r[0] != r[1]
  {
  }

  /** GET /categories/<id>/questions: a page of that category's questions,
      the category echoed, and the global count (not the category's). */
  function QuestionsByCategory(db: Db, category: nat, pageArg: Option<int>): (r: Reply<CategoryQuestionsBody>)
    requires Valid(db)
    ensures r.Ok?
    ensures r.body.currentCategory == category
    ensures r.body.total == Count(db)
    ensures r.body.questions == Paginate(InCategory(db, category), PageNumber(pageArg))
    ensures |r.body.questions| <= PageSize
    ensures forall q | q in r.body.questions :: q.category == category && q.id in Table(db)
  {
    var pool := InCategory(db, category);
    var page' := Paginate(pool, PageNumber(pageArg));
    Ok(CategoryQuestionsBody(page', category, Count(db)))
  }

  /** POST /quizzes, as written: the `if len(selected)` test sits inside the
      loop, so only the first question of the pool is ever looked at. A
      missing category or id raises outside any `try` (500), and an empty
      pool falls off the end of the view, which Flask answers with 500. */
  function QuizTurn(table: seq<Question>, previous: seq<int>, category: CategoryRef): (r: Reply<QuizBody>)
    ensures r.Err? <==> !category.WithId? || Pool(table, category.id) == []
    ensures r.Err? ==> r.failure == Internal
    ensures r.Ok? && r.body.Next? ==> r.body.question == Pool(table, category.id)[0] && r.body.question.id !in previous
    ensures r.Ok? ==> (r.body.Finished? <==> Pool(table, category.id)[0].id in previous)
  {
    match category
    case Absent => Err(Internal)
    case WithoutId => Err(Internal)
    case WithId(c) =>
      var pool := Pool(table, c);
      if pool == [] then Err(Internal)
      else if pool[0].id !in previous then Ok(Next(pool[0]))
      else Ok(Finished)
  }

  /** The quiz ends too early: with the first pool question asked and a
      second one not, the turn reports the end of the quiz. */
  lemma QuizEndsWhileQuestionsRemain()
    ensures var a := Question(1, "a", "x", 1, 1);
            var b := Question(2, "b", "y", 1, 1);
            && QuizTurn([a, b], [1], WithId(1)) == Ok(Finished)
            && QuizTurnIntended([a, b], [1], WithId(1), 0) == Ok(Next(b))
  {
    var a := Question(1, "a", "x", 1, 1);
    var b := Question(2, "b", "y", 1, 1);
    var pool := Pool([a, b], 1);
    assert pool == [a, b];
    assert Unasked(pool, [1]) == [b] by {
      assert forall q | q in Unasked(pool, [1]) :: q == b;
      assert b in Unasked(pool, [1]);
    }
  }

  /** A category with no questions fails with 500 instead of ending the quiz. */
  lemma EmptyPoolFails(previous: seq<int>, c: int)
    ensures QuizTurn([], previous, WithId(c)) == Err(Internal)
    ensures QuizTurnIntended([], previous, WithId(c), 0) == Ok(Finished)
  {
  }

  /** POST /quizzes as the loop was meant to read: drop every asked question
      from the pool, then pick one of the rest or end the quiz. */
  function QuizTurnIntended(table: seq<Question>, previous: seq<int>, category: CategoryRef, draw: nat): (r: Reply<QuizBody>)
    ensures r.Err? <==> !category.WithId?
    ensures r.Err? ==> r.failure == Internal
    ensures r.Ok? ==> (r.body.Next? <==> exists q :: q in table && q in Pool(table, category.id) && q.id !in previous)
    ensures r.Ok? && r.body.Next? ==>
              && r.body.question in table
              && r.body.question.id !in previous
              && (category.id != AllCategories ==> r.body.question.category == category.id)
  {
    match category
    case Absent => Err(Internal)
    case WithoutId => Err(Internal)
    case WithId(c) => Ok(Select(Pool(table, c), previous, draw))
  }
}
