/** The abstract store behind the ORM. Each table is held as its rows in
    primary-key order (the order `order_by(Question.id)` yields); the
    id-to-row map the handlers reason about is a view of it. Deletion and
    insertion are the only writes the handlers make. */
module Store {
  import opened Basics

  /** A question row, also standing for its formatted JSON object
      (`Question.format()` keeps every field, in particular the id). */
  datatype Question = Question(id: int, question: string, answer: string, category: int, difficulty: int)

  /** A category row; `kind` is the `type` column. */
  datatype Category = Category(id: int, kind: string)

  datatype Db = Db(questions: seq<Question>, categories: seq<Category>)

  predicate KeysIncreasing(qs: seq<Question>)
  {
    forall i, j | 0 <= i < j < |qs| :: qs[i].id < qs[j].id
  }

  predicate CategoryKeysIncreasing(cs: seq<Category>)
  {
    forall i, j | 0 <= i < j < |cs| :: cs[i].id < cs[j].id
  }

  /** Primary keys are unique, and each table is kept in key order. */
  predicate Valid(db: Db)
  {
    KeysIncreasing(db.questions) && CategoryKeysIncreasing(db.categories)
  }

  /** The keys of a question listing, in listing order. */
  function Ids(qs: seq<Question>): (ks: seq<int>)
    ensures |ks| == |qs|
    ensures forall i | 0 <= i < |qs| :: ks[i] == qs[i].id
  {
    if qs == [] then [] else [qs[0].id] + Ids(qs[1..])
  }

  lemma RowOfKey(qs: seq<Question>, k: int) returns (q: Question)
    requires k in Ids(qs)
    ensures q in qs && q.id == k
  {
    if qs[0].id == k { q := qs[0]; } else { q := RowOfKey(qs[1..], k); }
  }

  lemma KeyOfRow(qs: seq<Question>, q: Question)
    requires q in qs
    ensures q.id in Ids(qs)
  {
    if qs[0] != q { KeyOfRow(qs[1..], q); }
  }

  lemma ConsIncreasing(a: Question, rest: seq<Question>)
    requires KeysIncreasing(rest)
    requires forall i | 0 <= i < |rest| :: a.id < rest[i].id
    ensures KeysIncreasing([a] + rest)
  {
    var r := [a] + rest;
    forall i, j | 0 <= i < j < |r| ensures r[i].id < r[j].id {
      assert r[j] == rest[j - 1];
      if i > 0 { assert r[i] == rest[i - 1]; }
    }
  }

  lemma TailKeysAbove(qs: seq<Question>)
    requires KeysIncreasing(qs) && qs != []
    ensures KeysIncreasing(qs[1..])
    ensures forall q | q in qs[1..] :: qs[0].id < q.id
    ensures forall q :: q in qs <==> q == qs[0] || q in qs[1..]
  {
    assert qs == [qs[0]] + qs[1..];
  }

  /** The id-to-row view of a question listing. */
  function QuestionMap(qs: seq<Question>): (m: map<int, Question>)
    requires KeysIncreasing(qs)
    ensures forall k :: k in m <==> k in Ids(qs)
    ensures forall i | 0 <= i < |qs| :: m[qs[i].id] == qs[i]
    ensures |m| == |qs|
  {
    if qs == [] then map[]
    else
      var rest := QuestionMap(qs[1..]);
      assert qs[0].id !in rest;
      rest[qs[0].id := qs[0]]
  }

  /** The question table as a map from id to row: what `Question.query`
      looks rows up in. */
  function Table(db: Db): map<int, Question>
    requires Valid(db)
  {
    QuestionMap(db.questions)
  }

  /** `len(Question.query.all())`. */
  function Count(db: Db): (n: nat)
    ensures Valid(db) ==> n == |Table(db)|
  {
    |db.questions|
  }

  /** `Question.query.order_by(Question.id).all()`: every row of the table,
      each once, in ascending id order. */
  function QuestionsById(db: Db): (r: seq<Question>)
    requires Valid(db)
    ensures |r| == |Table(db)| == Count(db)
    ensures forall q | q in r :: q.id in Table(db) && Table(db)[q.id] == q
    ensures forall k | k in Table(db) :: Table(db)[k] in r
    ensures forall i, j | 0 <= i < j < |r| :: r[i].id < r[j].id
  {
    var r := db.questions;
    forall q | q in r ensures q.id in Table(db) && Table(db)[q.id] == q {
      KeyOfRow(r, q);
    }
    forall k | k in Table(db) ensures Table(db)[k] in r {
      var q := RowOfKey(r, k);
    }
    r
  }

  /** `Question.query.get(id)`: the row stored under `id`, if there is one. */
  function Find(db: Db, id: int): (r: Option<Question>)
    requires Valid(db)
    ensures r.Some? <==> id in Table(db)
    ensures r.Some? ==> r.value == Table(db)[id]
  {
    FindIn(db.questions, id)
  }

  function FindIn(qs: seq<Question>, id: int): (r: Option<Question>)
    requires KeysIncreasing(qs)
    ensures r.Some? <==> id in Ids(qs)
    ensures r.Some? ==> r.value == QuestionMap(qs)[id]
  {
    if qs == [] then None
    else if qs[0].id == id then Some(qs[0])
    else
      TailKeysAbove(qs);
      FindIn(qs[1..], id)
  }

  /** The rows other than the one with key `id`, order kept. */
  function Without(qs: seq<Question>, id: int): (r: seq<Question>)
    requires KeysIncreasing(qs)
    ensures KeysIncreasing(r)
    ensures forall q :: q in r <==> q in qs && q.id != id
    ensures |r| == if id in Ids(qs) then |qs| - 1 else |qs|
  {
    if qs == [] then []
    else
      TailKeysAbove(qs);
      if qs[0].id == id then
        assert id !in Ids(qs[1..]) by {
          forall i | 0 <= i < |qs| - 1 ensures Ids(qs[1..])[i] != id {
            assert qs[1..][i] in qs[1..];
          }
        }
        qs[1..]
      else
        var rest := Without(qs[1..], id);
        assert forall i | 0 <= i < |rest| :: rest[i] in qs[1..];
        ConsIncreasing(qs[0], rest);
        [qs[0]] + rest
  }

  /** The rows with `q` placed at its key position. */
  function Place(qs: seq<Question>, q: Question): (r: seq<Question>)
    requires KeysIncreasing(qs)
    requires q.id !in Ids(qs)
    ensures KeysIncreasing(r)
    ensures forall x :: x in r <==> x in qs || x == q
    ensures |r| == |qs| + 1
  {
    if qs == [] then [q]
    else if q.id < qs[0].id then
      ConsIncreasing(q, qs);
      [q] + qs
    else
      TailKeysAbove(qs);
      var rest := Place(qs[1..], q);
      assert forall i | 0 <= i < |rest| :: rest[i] in qs[1..] || rest[i] == q;
      ConsIncreasing(qs[0], rest);
      [qs[0]] + rest
  }

  lemma UpdateThenRemove(m: map<int, Question>, a: int, x: Question, b: int)
    ensures a == b && a !in m ==> m[a := x] - {b} == m
    ensures a != b ==> (m - {b})[a := x] == m[a := x] - {b}
  {
  }

  lemma {:induction false} WithoutTable(qs: seq<Question>, id: int)
    requires KeysIncreasing(qs)
    ensures QuestionMap(Without(qs, id)) == QuestionMap(qs) - {id}
  {
    if qs != [] {
      TailKeysAbove(qs);
      var m1 := QuestionMap(qs[1..]);
      UpdateThenRemove(m1, qs[0].id, qs[0], id);
      if qs[0].id != id {
        WithoutTable(qs[1..], id);
        var r := Without(qs, id);
        assert r[0] == qs[0] && r[1..] == Without(qs[1..], id);
      }
    }
  }

  lemma UpdatesCommute(m: map<int, Question>, a: int, x: Question, b: int, y: Question)
    requires a != b
    ensures m[a := x][b := y] == m[b := y][a := x]
  {
  }

  lemma {:induction false} PlaceTable(qs: seq<Question>, q: Question)
    requires KeysIncreasing(qs)
    requires q.id !in Ids(qs)
    ensures QuestionMap(Place(qs, q)) == QuestionMap(qs)[q.id := q]
  {
    if qs == [] {
    } else if q.id < qs[0].id {
      var r := [q] + qs;
      assert r[0] == q && r[1..] == qs;
    } else {
      TailKeysAbove(qs);
      PlaceTable(qs[1..], q);
      var r := Place(qs, q);
      assert r[0] == qs[0] && r[1..] == Place(qs[1..], q);
      UpdatesCommute(QuestionMap(qs[1..]), q.id, q, qs[0].id, qs[0]);
    }
  }

  /** `question.delete()` of the row stored under `id`: exactly that row
      goes; every other row and the category table stay. */
  function Delete(db: Db, id: int): (db': Db)
    requires Valid(db)
    requires id in Table(db)
    ensures Valid(db')
    ensures Table(db') == Table(db) - {id}
    ensures db'.categories == db.categories
    ensures Count(db') == Count(db) - 1
  {
    WithoutTable(db.questions, id);
    Db(Without(db.questions, id), db.categories)
  }

  /** `question.insert()` of a row under a key the table does not hold: the
      row is added and nothing else changes. */
  function Insert(db: Db, q: Question): (db': Db)
    requires Valid(db)
    requires q.id !in Table(db)
    ensures Valid(db')
    ensures Table(db') == Table(db)[q.id := q]
    ensures db'.categories == db.categories
    ensures Count(db') == Count(db) + 1
  {
    PlaceTable(db.questions, q);
    Db(Place(db.questions, q), db.categories)
  }

  /** The keys of a category listing, in listing order. */
  function CategoryIds(cs: seq<Category>): (ks: seq<int>)
    ensures |ks| == |cs|
    ensures forall i | 0 <= i < |cs| :: ks[i] == cs[i].id
  {
    if cs == [] then [] else [cs[0].id] + CategoryIds(cs[1..])
  }

  /** `{category.id: category.type for category in categories}`: each
      category's key mapped to its type label, and no other key. */
  function CategoryTypes(cs: seq<Category>): (r: map<int, string>)
    requires CategoryKeysIncreasing(cs)
    ensures forall k :: k in r <==> k in CategoryIds(cs)
    ensures forall i | 0 <= i < |cs| :: r[cs[i].id] == cs[i].kind
    ensures |r| == |cs|
  {
    if cs == [] then map[]
    else
      var rest := CategoryTypes(cs[1..]);
      assert cs[0].id !in rest;
      rest[cs[0].id := cs[0].kind]
  }
}
