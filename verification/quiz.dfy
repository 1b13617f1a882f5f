/** The quiz turn: the candidate pool for a category, the questions of it
    not yet asked, and the pick among them. `random.choice` is modelled by
    an injected draw, so every statement below holds whatever it returns. */
module Quiz {
  import opened Basics
  import opened Store
  import opened Api

  /** `quiz_category` as the request carries it: absent (or null, or an
      empty object), an object without an `id`, or one with an id. */
  datatype CategoryRef = Absent | WithoutId | WithId(id: int)

  /** The category id that means "every category". */
  const AllCategories := 0

  /** Whether a question is a candidate for the requested category. */
  predicate Belongs(q: Question, category: int)
  {
    category == AllCategories || q.category == category
  }

  /** `Question.query.all()` when the id is 0, else the questions filed
      under that category, taken from the rows in the order the store
      returns them: in particular the pool starts with the first row that
      belongs. */
  function Pool(table: seq<Question>, category: int): (r: seq<Question>)
    ensures |r| <= |table|
    ensures forall q :: q in r <==> q in table && Belongs(q, category)
    ensures category == AllCategories ==> r == table
    ensures (forall i | 0 <= i < |table| :: Belongs(table[i], category)) ==> r == table
    ensures r != [] ==> exists i | 0 <= i < |table| :: table[i] == r[0] && forall j | 0 <= j < i :: !Belongs(table[j], category)
  {
    if category == AllCategories then
      assert table != [] ==> Belongs(table[0], category);
      table
    else
      var belongs := (q: Question) => q.category == category;
      var r := Filter(table, belongs);
      if r == [] then r
      else
        FilterHead(table, belongs);
        FilterAll(table, belongs);
        r
  }

  /** The pool with the already asked questions dropped, order kept. */
  function Unasked(pool: seq<Question>, previous: seq<int>): (r: seq<Question>)
    ensures forall q :: q in r <==> q in pool && q.id !in previous
  {
    Filter(pool, (q: Question) => q.id !in previous)
  }

  /** `random.choice(selected)`: the element at the injected draw. */
  function Choose(selected: seq<Question>, draw: nat): (q: Question)
    requires selected != []
    ensures q in selected
  {
    selected[draw % |selected|]
  }

  /** Every candidate can be the one chosen. */
  lemma EveryCandidateReachable(selected: seq<Question>, q: Question)
    requires q in selected
    ensures exists draw: nat :: Choose(selected, draw) == q
  {
    var i :| 0 <= i < |selected| && selected[i] == q;
    assert Choose(selected, i) == q;
  }

  /** Filter the pool, then pick one unasked question or report the end of
      the quiz. */
  function Select(pool: seq<Question>, previous: seq<int>, draw: nat): (r: QuizBody)
    ensures r.Next? <==> exists q :: q in pool && q.id !in previous
    ensures r.Next? ==> r.question in pool && r.question.id !in previous
  {
    var selected := Unasked(pool, previous);
    if selected == [] then Finished
    else
      var q := Choose(selected, draw);
      Next(q)
  }
}
