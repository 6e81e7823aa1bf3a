/**
  The endpoints that only read the store: the category listing, the paginated
  question listing, the search branch of `POST /questions`, the questions of
  one category and the quiz draw. Each takes the question table (in id order)
  and the category table as values.
 */
module Queries {
  import opened Wrappers
  import opened TriviaData
  import opened Pagination
  import opened Text

  /** `[category.type for category in Category.query.all()]`. */
  function CategoryTypes(cats: seq<Category>): (r: seq<string>)
    ensures |r| == |cats|
    ensures forall i :: 0 <= i < |cats| ==> r[i] == cats[i].categoryType
    decreases |cats|
  {
    if cats == [] then [] else [cats[0].categoryType] + CategoryTypes(cats[1..])
  }

  /** `{category.id: category.type for category in Category.query.all()}`: on a repeated id the later row wins. */
  function CategoryMap(cats: seq<Category>): (m: map<int, string>)
    ensures m.Keys == set c | c in cats :: c.id
    ensures forall id :: id in m ==> Category(id, m[id]) in cats
    decreases |cats|
  {
    if cats == [] then map[]
    else
      var front, last := cats[..|cats| - 1], cats[|cats| - 1];
      assert cats == front + [last];
      CategoryMap(front)[last.id := last.categoryType]
  }

  /** With ids a primary key, the map sends each category's id to its type. */
  lemma CategoryMapLookup(cats: seq<Category>, i: int)
    requires DistinctCategoryIds(cats) && 0 <= i < |cats|
    ensures cats[i].id in CategoryMap(cats)
    ensures CategoryMap(cats)[cats[i].id] == cats[i].categoryType
  {
    var m := CategoryMap(cats);
    assert cats[i] in cats;
    var j :| 0 <= j < |cats| && cats[j] == Category(cats[i].id, m[cats[i].id]);
    assert i == j;
  }

  /** GET /categories: always 200, one entry per category id (an empty store gives an empty map). */
  function GetCategories(cats: seq<Category>): (r: Response)
    ensures r.Ok? && r.body.CategoryTable?
    ensures r.body.categoryMap.Keys == set c | c in cats :: c.id
    ensures forall id :: id in r.body.categoryMap ==> Category(id, r.body.categoryMap[id]) in cats
  {
    Ok(CategoryTable(CategoryMap(cats)))
  }

  /** GET /questions?page=N. */
  function GetQuestions(table: seq<Question>, cats: seq<Category>, page: int): (r: Response)
    ensures r.Err? <==> !PageHasItems(|table|, page)
    ensures r.Err? ==> r.error == NotFound
    ensures r.Ok? ==> r.body.QuestionPage?
                      && r.body.questions == Paginate(table, page)
                      && r.body.totalQuestions == |table|
                      && r.body.categories == CategoryTypes(cats)
  {
    var current := Paginate(table, page);
    PaginateNonEmptyIff(table, page);
    if |current| == 0 then Err(NotFound)
    else Ok(QuestionPage(current, |table|, CategoryTypes(cats)))
  }

  /** Every page of an id-ordered table is id-ordered. */
  lemma PageKeepsAscending(qs: seq<Question>, page: int)
    requires AscendingIds(qs)
    ensures AscendingIds(Paginate(qs, page))
  {
    var r := Paginate(qs, page);
    var lo := SliceBound((page - 1) * QuestionsPerPage, |qs|);
    forall i, j | 0 <= i < j < |r| ensures r[i].id < r[j].id {
      assert r[i] == qs[lo + i] && r[j] == qs[lo + j];
    }
  }

  /** A 200 from GET /questions lists up to ten questions, in ascending id order. */
  lemma GetQuestionsOrdered(table: seq<Question>, cats: seq<Category>, page: int)
    requires AscendingIds(table)
    ensures var r := GetQuestions(table, cats, page);
            r.Ok? ==> 1 <= |r.body.questions| <= QuestionsPerPage && AscendingIds(r.body.questions)
  {
    PageKeepsAscending(table, page);
    PaginateNonEmptyIff(table, page);
  }

  /** The search condition: the question text contains the term, ignoring case. */
  predicate Matches(term: string, q: Question) {
    ContainsIgnoringCase(q.question, term)
  }

  /** `Question.query.filter(Question.question.ilike('%term%')).all()`. */
  function Matching(table: seq<Question>, term: string): (r: seq<Question>)
    ensures forall q :: q in r <==> q in table && Matches(term, q)
  {
    Filter(q => Matches(term, q), table)
  }

  /**
    The search branch of POST /questions. The 404 looks at all matches, not at
    the requested page, so a page past the matches is a 200 with no questions.
   */
  function SearchQuestions(table: seq<Question>, term: string, page: int): (r: Response)
    ensures r.Err? <==> forall q :: q in table ==> !Matches(term, q)
    ensures r.Err? ==> r.error == NotFound
    ensures r.Ok? ==> r.body.SearchResults?
                      && r.body.totalQuestions == |Matching(table, term)|
                      && r.body.questions == Paginate(Matching(table, term), page)
    ensures r.Ok? && !PageHasItems(|Matching(table, term)|, page) ==> r.body.questions == []
  {
    var selection := Matching(table, term);
    var current := Paginate(selection, page);
    PaginateNonEmptyIff(selection, page);
    if |selection| == 0 then
      assert forall q :: q in table ==> !Matches(term, q);
      Err(NotFound)
    else
      assert selection[0] in table && Matches(term, selection[0]);
      Ok(SearchResults(current, |selection|))
  }

  /** Every search hit is a question of the table whose text contains the term; hits keep id order. */
  lemma SearchResultsSound(table: seq<Question>, term: string, page: int)
    requires AscendingIds(table)
    ensures var r := SearchQuestions(table, term, page);
            r.Ok? ==> && AscendingIds(r.body.questions)
                      && forall k :: 0 <= k < |r.body.questions| ==>
                           r.body.questions[k] in table && Matches(term, r.body.questions[k])
  {
    var selection := Matching(table, term);
    FilterKeepsAscending(q => Matches(term, q), table);
    PageKeepsAscending(selection, page);
  }

  /** `Category.query.filter(Category.id == id).first()`. */
  function FindCategory(cats: seq<Category>, id: int): (r: Option<Category>)
    ensures r.Some? ==> r.value in cats && r.value.id == id
    ensures r.None? <==> forall c :: c in cats ==> c.id != id
    decreases |cats|
  {
    if cats == [] then None
    else if cats[0].id == id then Some(cats[0])
    else FindCategory(cats[1..], id)
  }

  /** The questions of one category, in id order. */
  function InCategory(table: seq<Question>, categoryId: int): (r: seq<Question>)
    ensures forall q :: q in r <==> q in table && q.category == categoryId
  {
    Filter((q: Question) => q.category == categoryId, table)
  }

  /**
    GET /categories/{id}/questions. An empty page is a 404; a non-empty page
    whose category row is missing makes `current_category.format()` raise, which
    nothing catches.
   */
  function GetQuestionsByCategory(table: seq<Question>, cats: seq<Category>, categoryId: nat, page: int): (r: Response)
    ensures r == Err(NotFound) <==> !PageHasItems(|InCategory(table, categoryId)|, page)
    ensures r == Err(InternalServerError) <==>
              PageHasItems(|InCategory(table, categoryId)|, page) && forall c :: c in cats ==> c.id != categoryId
    ensures r.Err? ==> r.error == NotFound || r.error == InternalServerError
    ensures r.Ok? ==> r.body.CategoryPage?
                      && (forall k :: 0 <= k < |r.body.questions| ==>
                            r.body.questions[k] in table && r.body.questions[k].category == categoryId)
                      && r.body.questions == Paginate(InCategory(table, categoryId), page)
                      && r.body.totalQuestions == |InCategory(table, categoryId)|
                      && r.body.categories == CategoryTypes(cats)
                      && r.body.currentCategory in cats && r.body.currentCategory.id == categoryId
  {
    var current := FindCategory(cats, categoryId);
    var selection := InCategory(table, categoryId);
    var questions := Paginate(selection, page);
    PaginateNonEmptyIff(selection, page);
    if |questions| == 0 then Err(NotFound)
    else if current.None? then Err(InternalServerError)
    else Ok(CategoryPage(questions, |selection|, CategoryTypes(cats), current.value))
  }

  /** Every question names a category that exists. The store does not enforce this. */
  predicate CategoriesExist(table: seq<Question>, cats: seq<Category>) {
    forall q :: q in table ==> exists c :: c in cats && c.id == q.category
  }

  /** When every question's category exists, the by-category endpoint never fails with 500. */
  lemma ByCategoryNoServerError(table: seq<Question>, cats: seq<Category>, categoryId: nat, page: int)
    requires CategoriesExist(table, cats)
    ensures GetQuestionsByCategory(table, cats, categoryId, page) != Err(InternalServerError)
  {
    var selection := InCategory(table, categoryId);
    if PageHasItems(|selection|, page) {
      assert selection[0] in table && selection[0].category == categoryId;
      var c :| c in cats && c.id == selection[0].category;
    }
  }

  /** When every question's category exists, an unknown category id is a 404. */
  lemma UnknownCategoryNotFound(table: seq<Question>, cats: seq<Category>, categoryId: nat, page: int)
    requires CategoriesExist(table, cats)
    requires forall c :: c in cats ==> c.id != categoryId
    ensures GetQuestionsByCategory(table, cats, categoryId, page) == Err(NotFound)
  {
    var selection := InCategory(table, categoryId);
    assert forall q :: q in table ==> q.category != categoryId;
    FilterNone((q: Question) => q.category == categoryId, table);
  }

  /** A 200 from the by-category endpoint lists its questions in ascending id order. */
  lemma ByCategoryOrdered(table: seq<Question>, cats: seq<Category>, categoryId: nat, page: int)
    requires AscendingIds(table)
    ensures var r := GetQuestionsByCategory(table, cats, categoryId, page);
            r.Ok? ==> AscendingIds(r.body.questions)
  {
    FilterKeepsAscending((q: Question) => q.category == categoryId, table);
    PageKeepsAscending(InCategory(table, categoryId), page);
  }

  /** `d.get(key, None)` on a JSON object. */
  function Lookup(fields: map<string, Json>, key: string): Json {
    if key in fields then fields[key] else JNull
  }

  /** Python's `int(v)` on a decoded JSON value; `None` where it raises. */
  function PyInt(v: Json): Option<int> {
    match v
    case JInt(i) => Some(i)
    case JBool(b) => Some(if b then 1 else 0)
    case JStr(s) => ParseInt(s)
    case _ => None
  }

  /** The ids of JSON items that are all integers. */
  function IntItems(items: seq<Json>): (r: Option<seq<int>>)
    ensures r.Some? ==> |r.value| == |items| && forall k :: 0 <= k < |items| ==> items[k] == JInt(r.value[k])
    ensures r.None? ==> exists k :: 0 <= k < |items| && !items[k].JInt?
    decreases |items|
  {
    if items == [] then Some([])
    else if !items[0].JInt? then None
    else
      match IntItems(items[1..])
      case None => None
      case Some(rest) => Some([items[0].i] + rest)
  }

  /** `previous_questions` as `in_` accepts it here: a JSON list of integer ids. */
  function IdList(v: Json): (r: Option<seq<int>>)
    ensures r.Some? ==> v.JList? && |r.value| == |v.items|
                        && forall k :: 0 <= k < |v.items| ==> v.items[k] == JInt(r.value[k])
    ensures r.None? <==> !v.JList? || exists k :: 0 <= k < |v.items| && !v.items[k].JInt?
  {
    if v.JList? then IntItems(v.items) else None
  }

  /** A well-formed quiz request: `category_id` 0 means any category. */
  datatype QuizRequest = QuizRequest(categoryId: int, previous: seq<int>)

  /**
    Lines 219-224 of the handler and the `in_` call: the body must be a JSON
    object, `quiz_category` an object with an `id` that `int()` accepts and
    `previous_questions` a list of ids; anything else raises.
   */
  function ParseQuiz(body: Json): (r: Option<QuizRequest>)
    ensures r.Some? <==> && body.JObject?
                         && "quiz_category" in body.fields && "previous_questions" in body.fields
                         && body.fields["quiz_category"].JObject?
                         && "id" in body.fields["quiz_category"].fields
                         && PyInt(body.fields["quiz_category"].fields["id"]).Some?
                         && IdList(body.fields["previous_questions"]).Some?
    ensures r.Some? ==> && PyInt(body.fields["quiz_category"].fields["id"]) == Some(r.value.categoryId)
                        && IdList(body.fields["previous_questions"]) == Some(r.value.previous)
  {
    if !body.JObject? then None
    else
      var quizCategory := Lookup(body.fields, "quiz_category");
      var previous := Lookup(body.fields, "previous_questions");
      if !quizCategory.JObject? || "id" !in quizCategory.fields then None
      else
        match (PyInt(quizCategory.fields["id"]), IdList(previous))
        case (Some(categoryId), Some(ids)) => Some(QuizRequest(categoryId, ids))
        case _ => None
  }

  /** The body the front end sends: the category id as a string, the previous ids as a list. */
  function EncodeQuiz(req: QuizRequest): Json {
    JObject(map[
      "quiz_category" := JObject(map["id" := JStr(ShowInt(req.categoryId))]),
      "previous_questions" := JList(IntsToJson(req.previous))
    ])
  }

  function IntsToJson(ids: seq<int>): seq<Json>
    decreases |ids|
  {
    if ids == [] then [] else [JInt(ids[0])] + IntsToJson(ids[1..])
  }

  lemma {:induction false} IntItemsOfInts(ids: seq<int>)
    ensures IntItems(IntsToJson(ids)) == Some(ids)
    decreases |ids|
  {
    if ids != [] {
      var items := IntsToJson(ids);
      IntItemsOfInts(ids[1..]);
      assert items[0] == JInt(ids[0]);
      assert items[1..] == IntsToJson(ids[1..]);
      assert IntItems(items) == Some([ids[0]] + ids[1..]);
      assert [ids[0]] + ids[1..] == ids;
    }
  }

  /** Decoding the front end's body gives back the request it encodes. */
  lemma ParseEncodeQuiz(req: QuizRequest)
    ensures ParseQuiz(EncodeQuiz(req)) == Some(req)
  {
    var body := EncodeQuiz(req);
    ParseShowRoundTrip(req.categoryId);
    IntItemsOfInts(req.previous);
    var quizCategory := body.fields["quiz_category"];
    assert quizCategory == JObject(map["id" := JStr(ShowInt(req.categoryId))]);
    assert PyInt(quizCategory.fields["id"]) == Some(req.categoryId);
    assert IdList(body.fields["previous_questions"]) == Some(req.previous);
  }

  /** The draw pool: not asked before, and in the chosen category unless that is 0. */
  function QuizPool(table: seq<Question>, req: QuizRequest): (pool: seq<Question>)
    ensures forall q :: q in pool <==>
              q in table && q.id !in req.previous && (req.categoryId == 0 || q.category == req.categoryId)
  {
    Filter((q: Question) => q.id !in req.previous && (req.categoryId == 0 || q.category == req.categoryId), table)
  }

  /**
    POST /quizzes: some question of the pool, chosen nondeterministically where
    the source orders by `random()`; `null` once the pool is exhausted; 422 on
    a malformed body.
   */
  method GetQuizQuestion(table: seq<Question>, body: Json) returns (r: Response)
    ensures ParseQuiz(body).None? <==> r == Err(Unprocessable)
    ensures r.Ok? ==> r.body.QuizQuestion?
    ensures ParseQuiz(body).Some? ==>
              var req := ParseQuiz(body).value;
              && r.Ok?
              && (r.body.question.None? <==> forall q :: q in table ==>
                    q.id in req.previous || (req.categoryId != 0 && q.category != req.categoryId))
              && (r.body.question.Some? ==>
                    var q := r.body.question.value;
                    q in table && q.id !in req.previous && (req.categoryId != 0 ==> q.category == req.categoryId))
  {
    var outcome: Response;
    match ParseQuiz(body) {
      case None =>
        outcome := Err(Unprocessable);
      case Some(req) =>
        var pool := QuizPool(table, req);
        if pool == [] {
          outcome := Ok(QuizQuestion(None));
        } else {
          assert pool[0] in pool;
          var q :| q in pool;
          outcome := Ok(QuizQuestion(Some(q)));
        }
    }
    r := CatchAll(outcome);
  }

  /** The request of the quiz test case: category `{"id": "1"}`, nothing asked before. */
  lemma QuizExampleParses()
    ensures ParseQuiz(JObject(map[
              "previous_questions" := JList([]),
              "quiz_category" := JObject(map["id" := JStr("1"), "type" := JStr("Science")])
            ])) == Some(QuizRequest(1, []))
  {
    ParseShowRoundTrip(1);
    assert ShowInt(1) == "1";
  }
}
