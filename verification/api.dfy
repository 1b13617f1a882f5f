/** Response bodies and request payloads shared by both application
    variants. A question in a body stands for its formatted JSON object. */
module Api {
  import opened Store

  /** GET /questions: `{questions, categories, total_questions}`. */
  datatype QuestionsBody = QuestionsBody(questions: seq<Question>, categories: map<int, string>, total: nat)

  /** DELETE /questions/<id>: `{deleted, questions, total_questions}`. */
  datatype DeletedBody = DeletedBody(deleted: int, questions: seq<Question>, total: nat)

  /** The search routes: `{questions, total_questions}`. */
  datatype SearchBody = SearchBody(questions: seq<Question>, total: nat)

  /** POST /quizzes: `{question: <question>}` or `{question: False}`. */
  datatype QuizBody = Next(question: Question) | Finished

  /** The fields of POST /questions. */
  datatype NewQuestion = NewQuestion(question: string, answer: string, category: int, difficulty: int)

  /** The row `Question(...)` builds from the request, under the key the
      store assigns on insert. */
  function Row(form: NewQuestion, id: int): Question
  {
    Question(id, form.question, form.answer, form.category, form.difficulty)
  }

  /** The fields a client posted, as `Question.format()` echoes them back. */
  function Posted(q: Question): NewQuestion
  {
    NewQuestion(q.question, q.answer, q.category, q.difficulty)
  }

  /** A stored row gives back exactly what was posted, under the assigned
      key, and is determined by those two. */
  lemma RowRoundTrip(form: NewQuestion, id: int, q: Question)
    ensures Posted(Row(form, id)) == form && Row(form, id).id == id
    ensures Row(Posted(q), q.id) == q
  {
  }
}
