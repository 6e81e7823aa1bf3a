/**
  The two handlers that change the question table: DELETE /questions/{id}
  and POST /questions (whose search branch only reads). The table lives in a
  `TriviaService` object, the in-memory stand-in for the relational store.
 */
module Service {
  import opened Wrappers
  import opened TriviaData
  import opened Pagination
  import opened Text
  import opened Queries

  /** `request.args.get('page', 1, type=int)`: 1 when the argument is absent or `int()` rejects it. */
  function PageNumber(arg: Option<string>): int {
    match arg
    case None => 1
    case Some(s) => if ParseInt(s).Some? then ParseInt(s).value else 1
  }

  /** A page number written out in the query string is the page requested. */
  lemma PageNumberRoundTrip(page: int)
    ensures PageNumber(Some(ShowInt(page))) == page
  {
    ParseShowRoundTrip(page);
  }

  /** The body of POST /questions: a search term, or the four fields of a new question. */
  datatype AddRequest = AddRequest(searchTerm: Option<string>, question: string, answer: string, category: int, difficulty: int)

  /** `if search_term:`: a present, non-empty term selects the search branch. */
  predicate IsSearch(req: AddRequest) {
    req.searchTerm.Some? && req.searchTerm.value != ""
  }

  /** `Question.query.filter(Question.id == id).one_or_none()`, as a position in the table. */
  function IndexOfId(qs: seq<Question>, id: int): (r: Option<nat>)
    ensures r.Some? ==> r.value < |qs| && qs[r.value].id == id
    ensures r.None? <==> forall q :: q in qs ==> q.id != id
    decreases |qs|
  {
    if qs == [] then None
    else if qs[0].id == id then Some(0)
    else
      match IndexOfId(qs[1..], id)
      case None => None
      case Some(i) => Some(i + 1)
  }

  /** The table without the rows whose id is `id`, the rest in their order. */
  function Without(qs: seq<Question>, id: int): seq<Question>
    decreases |qs|
  {
    if qs == [] then []
    else (if qs[0].id != id then [qs[0]] else []) + Without(qs[1..], id)
  }

  /** After removing `id`, exactly the rows with another id remain. */
  lemma {:induction false} WithoutMembers(qs: seq<Question>, id: int)
    ensures forall q :: q in Without(qs, id) <==> q in qs && q.id != id
    decreases |qs|
  {
    if qs != [] {
      WithoutMembers(qs[1..], id);
      assert qs == [qs[0]] + qs[1..];
    }
  }

  /** In an id-ordered table no row other than the `i`-th has its id. */
  lemma IdOnlyAt(qs: seq<Question>, i: int)
    requires AscendingIds(qs) && 0 <= i < |qs|
    ensures forall j :: 0 <= j < |qs| && j != i ==> qs[j].id != qs[i].id
  {
  }

  /** Cutting one row out of an id-ordered table leaves it id-ordered. */
  lemma CutKeepsAscending(qs: seq<Question>, i: int)
    requires AscendingIds(qs) && 0 <= i < |qs|
    ensures AscendingIds(qs[..i] + qs[i + 1..])
  {
    var cut := qs[..i] + qs[i + 1..];
    forall j, k | 0 <= j < k < |cut| ensures cut[j].id < cut[k].id {
      var j', k' := if j < i then j else j + 1, if k < i then k else k + 1;
      assert cut[j] == qs[j'] && cut[k] == qs[k'];
    }
  }

  /** Cutting out the only row with id `id` is removing that id and nothing else. */
  lemma {:induction false} RemoveAtIsWithout(qs: seq<Question>, i: int, id: int)
    requires 0 <= i < |qs| && qs[i].id == id
    requires forall j :: 0 <= j < |qs| && j != i ==> qs[j].id != id
    ensures qs[..i] + qs[i + 1..] == Without(qs, id)
    decreases |qs|
  {
    var tail := qs[1..];
    if i == 0 {
      KeepAll(tail, id);
    } else {
      RemoveAtIsWithout(tail, i - 1, id);
      assert qs[..i] == [qs[0]] + tail[..i - 1];
      assert qs[i + 1..] == tail[i..];
    }
  }

  /** Removing an id no row has leaves the table as it is. */
  lemma {:induction false} KeepAll(qs: seq<Question>, id: int)
    requires forall j :: 0 <= j < |qs| ==> qs[j].id != id
    ensures Without(qs, id) == qs
    decreases |qs|
  {
    if qs != [] {
      KeepAll(qs[1..], id);
    }
  }

  /**
    A question added to a table of `n` rows is the last entry of page
    `n / 10 + 1`, and that page is the last one: the page after it is empty.
   */
  lemma NewQuestionListed(qs: seq<Question>, q: Question)
    ensures q in Paginate(qs + [q], |qs| / QuestionsPerPage + 1)
    ensures var r := Paginate(qs + [q], |qs| / QuestionsPerPage + 1);
            r != [] && r[|r| - 1] == q
    ensures Paginate(qs + [q], |qs| / QuestionsPerPage + 2) == []
  {
    var page := |qs| / QuestionsPerPage + 1;
    PagesCover(qs + [q], |qs|);
    PaginateWindow(qs + [q], page);
    PaginateNonEmptyIff(qs + [q], page + 1);
  }

  class TriviaService {
    var questions: seq<Question>
    var categories: seq<Category>
    /** The next value of the primary-key sequence. */
    var nextId: int

    ghost predicate Valid()
      reads this
    {
      && AscendingIds(questions)
      && DistinctCategoryIds(categories)
      && forall q :: q in questions ==> q.id < nextId
    }

    /** A store seeded out of band, as the database dump does. */
    constructor (seedQuestions: seq<Question>, seedCategories: seq<Category>, firstFreeId: int)
      requires AscendingIds(seedQuestions) && DistinctCategoryIds(seedCategories)
      requires forall q :: q in seedQuestions ==> q.id < firstFreeId
      ensures Valid()
      ensures questions == seedQuestions && categories == seedCategories && nextId == firstFreeId
    {
      questions := seedQuestions;
      categories := seedCategories;
      nextId := firstFreeId;
    }

    /**
      DELETE /questions/{id}. The `abort(404)` for a missing row is raised
      inside the `try`, so the catch-all turns it into 422.
     */
    method DeleteQuestion(questionId: nat) returns (r: Response)
      requires Valid()
      modifies this
      ensures Valid()
      ensures categories == old(categories) && nextId == old(nextId)
      ensures questions == Without(old(questions), questionId)
      ensures (exists q :: q in old(questions) && q.id == questionId) ==>
                r == Ok(Deleted(questionId)) && |questions| == |old(questions)| - 1
      ensures (forall q :: q in old(questions) ==> q.id != questionId) ==>
                r == Err(Unprocessable) && questions == old(questions)
    {
      var outcome: Response;
      match IndexOfId(questions, questionId) {
        case None =>
          assert forall j :: 0 <= j < |questions| ==> questions[j] in questions;
          KeepAll(questions, questionId);
          outcome := Err(NotFound);
        case Some(i) =>
          IdOnlyAt(questions, i);
          RemoveAtIsWithout(questions, i, questionId);
          CutKeepsAscending(questions, i);
          questions := questions[..i] + questions[i + 1..];
          outcome := Ok(Deleted(questionId));
      }
      r := CatchAll(outcome);
    }

    /**
      POST /questions. A non-empty `searchTerm` searches; otherwise a new row
      is inserted, which the store may refuse (`accepted` is its verdict), and
      any failure there is 422.
     */
    method AddQuestion(req: AddRequest, page: int, accepted: bool) returns (r: Response)
      requires Valid()
      modifies this
      ensures Valid()
      ensures categories == old(categories)
      ensures IsSearch(req) ==>
                && r == SearchQuestions(old(questions), req.searchTerm.value, page)
                && questions == old(questions) && nextId == old(nextId)
      ensures !IsSearch(req) && accepted ==>
                && questions == old(questions) + [Question(old(nextId), req.question, req.answer, req.category, req.difficulty)]
                && nextId == old(nextId) + 1
                && r == Ok(Created(Paginate(questions, page), |old(questions)| + 1))
      ensures !IsSearch(req) && !accepted ==>
                r == Err(Unprocessable) && questions == old(questions) && nextId == old(nextId)
    {
      if IsSearch(req) {
        r := SearchQuestions(questions, req.searchTerm.value, page);
      } else {
        var outcome: Response;
        if accepted {
          var row := Question(nextId, req.question, req.answer, req.category, req.difficulty);
          questions := questions + [row];
          nextId := nextId + 1;
          outcome := Ok(Created(Paginate(questions, page), |questions|));
        } else {
          // the insert raises; uncaught, that would be a 500
          outcome := Err(InternalServerError);
        }
        r := CatchAll(outcome);
      }
    }
  }
}
