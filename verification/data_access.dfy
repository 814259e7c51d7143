/** The two tables the handlers read and write, held in memory in query order,
    and the table operations the handlers use: filter, get by primary key,
    delete, insert, and the category id-to-type dictionary. */
module DataAccess {
  import opened Wrappers
  import opened Json

  /** A row of the question table. The text, answer, category and difficulty
      are the JSON values the create handler handed to the ORM; the category
      column is loosely typed, so it is kept as a JSON value too. */
  datatype Question = Question(id: nat, question: Json, answer: Json, category: Json, difficulty: Json)

  /** A row of the category table; `kind` is the column `type`. */
  datatype Category = Category(id: nat, kind: string)

  /** Both tables in the order the database returns them, and the next value
      of the question id sequence. */
  datatype Store = Store(questions: seq<Question>, categories: seq<Category>, nextId: nat)

  /** Comparisons the database evaluates and the model leaves uninterpreted:
      the SQL `category = value` test and the case-insensitive `ilike` test of
      question text against `%term%`. */
  datatype Db = Db(sameCategory: (Json, Json) -> bool, ilike: (Json, Json) -> bool)

  predicate DistinctQuestionIds(qs: seq<Question>)
  {
    forall i, j :: 0 <= i < j < |qs| ==> qs[i].id != qs[j].id
  }

  predicate DistinctCategoryIds(cs: seq<Category>)
  {
    forall i, j :: 0 <= i < j < |cs| ==> cs[i].id != cs[j].id
  }

  /** Primary keys are unique and every question id was issued by the sequence. */
  predicate Valid(s: Store)
  {
    && DistinctQuestionIds(s.questions)
    && DistinctCategoryIds(s.categories)
    && forall q :: q in s.questions ==> q.id < s.nextId
  }

  /** `query.filter(p).all()`: the rows satisfying `p`, in table order. */
  function Filter<T(!new)>(s: seq<T>, p: T -> bool): (r: seq<T>)
    ensures |r| <= |s|
    ensures forall x :: x in r <==> x in s && p(x)
  {
    if s == [] then []
    else if p(s[0]) then [s[0]] + Filter(s[1..], p)
    else Filter(s[1..], p)
  }

  /** A row appended to the table lands at the end of every filter that keeps it. */
  lemma {:induction false} FilterAppend<T(!new)>(s: seq<T>, x: T, p: T -> bool)
    ensures Filter(s + [x], p) == Filter(s, p) + (if p(x) then [x] else [])
  {
    if s == [] {
      assert s + [x] == [x];
      assert [x][1..] == [];
    } else {
      assert (s + [x])[1..] == s[1..] + [x];
      FilterAppend(s[1..], x, p);
    }
  }

  /** `Question.query.get(id)`: the row with that primary key, or None. */
  function Find(qs: seq<Question>, id: int): (r: Option<Question>)
    ensures r.Some? ==> r.value in qs && r.value.id == id
    ensures r.None? <==> forall q :: q in qs ==> q.id != id
  {
    if qs == [] then None
    else if qs[0].id == id then Some(qs[0])
    else Find(qs[1..], id)
  }

  /** The question table after `delete` of the row with primary key `id`. */
  function Remove(qs: seq<Question>, id: int): (r: seq<Question>)
    ensures |r| <= |qs|
    ensures forall q :: q in r <==> q in qs && q.id != id
  {
    if qs == [] then []
    else if qs[0].id == id then Remove(qs[1..], id)
    else [qs[0]] + Remove(qs[1..], id)
  }

  lemma {:induction false} RemoveAbsent(qs: seq<Question>, id: int)
    requires forall q :: q in qs ==> q.id != id
    ensures Remove(qs, id) == qs
  {
    if qs != [] {
      assert qs[0] in qs;
      assert forall q :: q in qs[1..] ==> q in qs;
      RemoveAbsent(qs[1..], id);
      assert [qs[0]] + qs[1..] == qs;
    }
  }

  /** Deleting an existing row removes exactly that row and keeps the order of the others. */
  lemma {:induction false} RemoveAt(qs: seq<Question>, i: int)
    requires DistinctQuestionIds(qs)
    requires 0 <= i < |qs|
    ensures Remove(qs, qs[i].id) == qs[..i] + qs[i + 1..]
  {
    var rest := qs[1..];
    if i == 0 {
      forall q | q in rest
        ensures q.id != qs[0].id
      {
        var k :| 0 <= k < |rest| && rest[k] == q;
        assert rest[k] == qs[k + 1];
      }
      RemoveAbsent(rest, qs[0].id);
      assert qs[..0] + qs[1..] == rest;
    } else {
      assert DistinctQuestionIds(rest) by {
        forall a, b | 0 <= a < b < |rest|
          ensures rest[a].id != rest[b].id
        {
          assert rest[a] == qs[a + 1] && rest[b] == qs[b + 1];
        }
      }
      assert rest[i - 1] == qs[i];
      RemoveAt(rest, i - 1);
      assert qs[0].id != qs[i].id;
      assert qs[..i] == [qs[0]] + rest[..i - 1];
      assert qs[i + 1..] == rest[i..];
    }
  }

  /** `question.delete()` against the store; the id sequence is untouched. */
  function Delete(s: Store, id: int): (t: Store)
    ensures Valid(s) ==> Valid(t)
    ensures t.categories == s.categories && t.nextId == s.nextId
    ensures forall q :: q in t.questions <==> q in s.questions && q.id != id
  {
    var t := s.(questions := Remove(s.questions, id));
    assert Valid(s) ==> DistinctQuestionIds(t.questions) by {
      if Valid(s) {
        RemoveKeepsDistinct(s.questions, id);
      }
    }
    t
  }

  lemma {:induction false} RemoveKeepsDistinct(qs: seq<Question>, id: int)
    requires DistinctQuestionIds(qs)
    ensures DistinctQuestionIds(Remove(qs, id))
  {
    if qs != [] {
      var rest := qs[1..];
      assert DistinctQuestionIds(rest) by {
        forall a, b | 0 <= a < b < |rest|
          ensures rest[a].id != rest[b].id
        {
          assert rest[a] == qs[a + 1] && rest[b] == qs[b + 1];
        }
      }
      RemoveKeepsDistinct(rest, id);
      if qs[0].id != id {
        var r := Remove(rest, id);
        forall q | q in r
          ensures q.id != qs[0].id
        {
          var k :| 0 <= k < |rest| && rest[k] == q;
          assert rest[k] == qs[k + 1];
        }
        var t := [qs[0]] + r;
        forall a, b | 0 <= a < b < |t|
          ensures t[a].id != t[b].id
        {
          if a == 0 {
            assert t[b] == r[b - 1] && t[b] in r;
          } else {
            assert t[a] == r[a - 1] && t[b] == r[b - 1];
          }
        }
      }
    }
  }

  /** `question.insert()`: the new row is appended with the next id of the sequence. */
  function Insert(s: Store, question: Json, answer: Json, category: Json, difficulty: Json): (t: Store)
    ensures Valid(s) ==> Valid(t)
    ensures t.categories == s.categories && t.nextId == s.nextId + 1
    ensures |t.questions| == |s.questions| + 1 && t.questions[..|s.questions|] == s.questions
    ensures t.questions[|s.questions|] == Question(s.nextId, question, answer, category, difficulty)
  {
    var row := Question(s.nextId, question, answer, category, difficulty);
    var t := s.(questions := s.questions + [row], nextId := s.nextId + 1);
    assert t.questions[..|s.questions|] == s.questions;
    t
  }

  /** `{category.id: category.type for category in categories}`; a later row
      overwrites an earlier one with the same id. */
  function CategoryMap(cs: seq<Category>): (m: map<int, string>)
    ensures m.Keys == set c | c in cs :: c.id
    ensures forall k :: k in m ==> Category(k, m[k]) in cs
  {
    if cs == [] then map[]
    else
      var init := cs[..|cs| - 1];
      var last := cs[|cs| - 1];
      assert cs == init + [last];
      CategoryMap(init)[last.id := last.kind]
  }

  /** With unique category ids the dictionary maps every category to its own type label. */
  lemma CategoryMapLabels(cs: seq<Category>)
    ensures DistinctCategoryIds(cs) ==>
      forall c :: c in cs ==> c.id in CategoryMap(cs) && CategoryMap(cs)[c.id] == c.kind
  {
    var m := CategoryMap(cs);
    if DistinctCategoryIds(cs) {
      forall c | c in cs
        ensures c.id in m && m[c.id] == c.kind
      {
        assert c.id in m;
        var d := Category(c.id, m[c.id]);
        assert d in cs;
        var i :| 0 <= i < |cs| && cs[i] == c;
        var j :| 0 <= j < |cs| && cs[j] == d;
        assert i == j;
      }
    }
  }

  /** `Category.query.filter(Category.id == id).first()`: the first row with
      that id, or None. */
  function FirstCategory(cs: seq<Category>, id: int): (r: Option<Category>)
    ensures r.Some? <==> exists c :: c in cs && c.id == id
    ensures r.Some? ==> r.value in cs && r.value.id == id
  {
    if cs == [] then None
    else if cs[0].id == id then Some(cs[0])
    else FirstCategory(cs[1..], id)
  }
}
