/** The two filtered reads of the question table that go through the
    database: the case-insensitive text search and the category filter.
    Both are modelled over the id-ordered listing; the database does not
    promise that order for them, so statements below about order describe
    the model's choice. */
module Queries {
  import opened Basics
  import opened Store
  import opened Text

  /** The questions whose text contains the term, case ignored, in id order. */
  function Matching(db: Db, term: string): (r: seq<Question>)
    requires Valid(db)
    ensures forall q | q in r :: q.id in Table(db) && Table(db)[q.id] == q && Contains(q.question, term)
    ensures forall k | k in Table(db) && Contains(Table(db)[k].question, term) :: Table(db)[k] in r
    ensures forall i, j | 0 <= i < j < |r| :: r[i].id < r[j].id
  {
    var listing := QuestionsById(db);
    FilterKeepsOrder(listing, (q: Question) => Contains(q.question, term), (a: Question, b: Question) => a.id < b.id);
    Filter(listing, (q: Question) => Contains(q.question, term))
  }

  /** The questions filed under a category, in id order. */
  function InCategory(db: Db, category: int): (r: seq<Question>)
    requires Valid(db)
    ensures forall q | q in r :: q.id in Table(db) && Table(db)[q.id] == q && q.category == category
    ensures forall k | k in Table(db) && Table(db)[k].category == category :: Table(db)[k] in r
    ensures forall i, j | 0 <= i < j < |r| :: r[i].id < r[j].id
  {
    var listing := QuestionsById(db);
    FilterKeepsOrder(listing, (q: Question) => q.category == category, (a: Question, b: Question) => a.id < b.id);
    Filter(listing, (q: Question) => q.category == category)
  }
}
