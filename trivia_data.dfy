/** The stock optional-value wrapper. */
module Wrappers {
  datatype Option<+T> = None | Some(value: T)
}

/**
  The records the trivia service stores and answers with: the question and
  category tables, the decoded JSON of a request body, the error envelope and
  the success bodies of the six endpoints.
 */
module TriviaData {
  import opened Wrappers

  /** A row of the question table; `id` is the primary key the store assigns. */
  datatype Question = Question(id: int, question: string, answer: string, category: int, difficulty: int)

  /** A row of the category table (the column `type` is called `categoryType` here). */
  datatype Category = Category(id: int, categoryType: string)

  /** A decoded JSON value, as `request.get_json()` hands it to a handler. */
  datatype Json =
    | JNull
    | JBool(b: bool)
    | JInt(i: int)
    | JStr(s: string)
    | JList(items: seq<Json>)
    | JObject(fields: map<string, Json>)

  /**
    The ways a request can fail. The first three have registered handlers
    answering `{success: false, error: Code(), message: Message()}`;
    `InternalServerError` is what the framework answers when a handler raises
    an exception that nothing catches.
   */
  datatype HttpError = BadRequest | NotFound | Unprocessable | InternalServerError {
    function Code(): int {
      match this
      case BadRequest => 400
      case NotFound => 404
      case Unprocessable => 422
      case InternalServerError => 500
    }

    function Message(): string {
      match this
      case BadRequest => "bad request"
      case NotFound => "resource not found"
      case Unprocessable => "unprocessable"
      case InternalServerError => "Internal Server Error"
    }
  }

  /** The handler that `abort(code)` reaches: one of the three registered error handlers. */
  function HandlerFor(code: int): (r: Option<HttpError>)
    ensures r.Some? <==> code == 400 || code == 404 || code == 422
    ensures r.Some? ==> r.value.Code() == code && r.value != InternalServerError
  {
    if code == 400 then Some(BadRequest)
    else if code == 404 then Some(NotFound)
    else if code == 422 then Some(Unprocessable)
    else None
  }

  /** The success body of each endpoint; `success: true` is implied by `Ok`. */
  datatype Body =
    | CategoryTable(categoryMap: map<int, string>)
    | QuestionPage(questions: seq<Question>, totalQuestions: nat, categories: seq<string>)
    | Deleted(deleted: int)
    | SearchResults(questions: seq<Question>, totalQuestions: nat)
    | Created(questions: seq<Question>, totalQuestions: nat)
    | CategoryPage(questions: seq<Question>, totalQuestions: nat, categories: seq<string>, currentCategory: Category)
    | QuizQuestion(question: Option<Question>)

  datatype Response = Ok(body: Body) | Err(error: HttpError)

  /**
    `except Exception: abort(422)`: every failure raised inside the guarded
    block, an `abort(404)` included, leaves it as 422.
   */
  function CatchAll(r: Response): (r': Response)
    ensures r.Ok? ==> r' == r
    ensures r.Err? ==> r' == Err(Unprocessable)
  {
    if r.Err? then Err(Unprocessable) else r
  }

  /** The question table is kept in ascending primary-key order. */
  predicate AscendingIds(qs: seq<Question>) {
    forall i, j :: 0 <= i < j < |qs| ==> qs[i].id < qs[j].id
  }

  /** Category ids are a primary key. */
  predicate DistinctCategoryIds(cats: seq<Category>) {
    forall i, j :: 0 <= i < j < |cats| ==> cats[i].id != cats[j].id
  }

  /** The elements of `s` that satisfy `p`, in their order in `s` (a SQL `WHERE`). */
  function Filter<T(!new)>(p: T -> bool, s: seq<T>): (r: seq<T>)
    ensures |r| <= |s|
    ensures forall x :: x in r <==> x in s && p(x)
    decreases |s|
  {
    if s == [] then []
    else if p(s[0]) then [s[0]] + Filter(p, s[1..])
    else Filter(p, s[1..])
  }

  /** A condition no row meets selects nothing. */
  lemma {:induction false} FilterNone<T(!new)>(p: T -> bool, s: seq<T>)
    requires forall x :: x in s ==> !p(x)
    ensures Filter(p, s) == []
    decreases |s|
  {
    if s != [] {
      FilterNone(p, s[1..]);
    }
  }

  /** Filtering keeps the rows in table order, so an id-ordered table stays id-ordered. */
  lemma {:induction false} FilterKeepsAscending(p: Question -> bool, qs: seq<Question>)
    requires AscendingIds(qs)
    ensures AscendingIds(Filter(p, qs))
    decreases |qs|
  {
    if qs != [] {
      var rest := Filter(p, qs[1..]);
      FilterKeepsAscending(p, qs[1..]);
      if p(qs[0]) {
        forall j | 0 <= j < |rest| ensures qs[0].id < rest[j].id {
          assert rest[j] in qs[1..];
        }
        assert Filter(p, qs) == [qs[0]] + rest;
      }
    }
  }
}
