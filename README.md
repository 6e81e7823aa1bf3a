# Trivia API request handlers, modelled in Dafny

This project models the request-handling core of a small trivia REST service
(`backend/flaskr/__init__.py`). The service keeps a table of questions
`{id, question, answer, category, difficulty}` in ascending id order and a
table of categories `{id, type}`. It answers six endpoints:

- list the categories;
- list the questions ten per page;
- delete a question;
- create a question, or search the question texts (one endpoint, two branches);
- list the questions of one category;
- draw a quiz question that was not asked before.

Every endpoint returns a `Response`. `Ok(body)` holds the success payload.
`Err(e)` holds an error. For 400, 404 and 422 that is the envelope `{success: false, error: e.Code(), message: e.Message()}` of the registered handlers. No 500 handler is registered, so `InternalServerError` stands for the framework's default 500 page, not that envelope.

Files:

- `trivia_data.dfy`: modules `Wrappers` and `TriviaData`. They hold the rows, a decoded JSON value, the errors and their handlers, the bodies, the `except Exception: abort(422)` wrapper (`CatchAll`) and a table filter (`Filter`).
- `pagination.dfy`: module `Pagination`. `paginate_questions` with Python's slice semantics: page 0 is empty, and a negative page counts back from the end of the selection.
- `text.dfy`: module `Text`. The case-insensitive substring test behind `ilike '%term%'`, and Python's `int()` on a decimal string with its inverse `str()`.
- `queries.dfy`: module `Queries`. The endpoints that only read: functions over the tables, plus the quiz draw as a method with a nondeterministic choice.
- `service.dfy`: module `Service`. Class `TriviaService` holds the tables. Its methods `DeleteQuestion` and `AddQuestion` change them.

Three behaviours of the code are easy to misread; the model follows the code:

- Deleting an id that is not in the table answers 422, not 404. The `abort(404)` is raised inside the `try`, and `except Exception` catches it (`__init__.py:93-110`, confirmed by `test_flaskr.py:99-105`).
- The create branch paginates the new table by the request's `page` query argument, as `paginate_questions(request, ...)` does. So a create with `?page=2` answers with the second page of the new table.
- When questions match but the category row is missing, the by-category endpoint dereferences `None` at line 202. Nothing catches that exception. The model answers `InternalServerError` (500). `ByCategoryNoServerError` proves this cannot happen when every question's category exists.

## Model

| member | source | states |
|---|---|---|
| `TriviaData.HandlerFor` | backend/flaskr/__init__.py:246-268 | Exactly the codes 400, 404 and 422 have a registered handler. Each handler answers with its own code. |
| `TriviaData.Filter` | backend/flaskr/__init__.py:190-191 | The selection holds exactly the rows that meet the condition and is no longer than the table. |
| `TriviaData.FilterNone` | backend/flaskr/__init__.py:190-191 | A condition that no row meets selects nothing. |
| `TriviaData.FilterKeepsAscending` | backend/flaskr/__init__.py:190-191 | A selection from an id-ordered table is id-ordered. |
| `Pagination.Paginate` | backend/flaskr/__init__.py:57-65 | A page holds at most `QUESTIONS_PER_PAGE` (10) items, all from the selection. |
| `Pagination.PaginateNonEmptyIff` | backend/flaskr/__init__.py:57-65 | A page is non-empty exactly when it is positive and starts before the end, or is negative and its window counted from the end still reaches past the front. |
| `Pagination.EmptyPages` | backend/flaskr/__init__.py:57-65 | Page 0 (slice -10:0) is empty. Every page of an empty selection is empty. |
| `Pagination.PaginateWindow` | backend/flaskr/__init__.py:57-65 | For page >= 1, the page holds the items at `(page-1)*10 ..` that exist, in order: `min(10, remaining)` of them. |
| `Pagination.PaginateFromEnd` | backend/flaskr/__init__.py:57-65 | A negative page whose window starts inside the selection is the Python negative-index window `[n+(page-1)*10, n+page*10)`. |
| `Pagination.PagesCover` | backend/flaskr/__init__.py:57-65 | Item `i` of the selection is entry `i % 10` of page `i / 10 + 1`, so every question is listed on some page. |
| `Text.ContainsIff` | backend/flaskr/__init__.py:143-144 | The recursive substring test holds exactly when the term occurs at some index of the text. |
| `Text.DecimalValue` | backend/flaskr/__init__.py:224 | The digit string written for `n` has the value `n`. |
| `Text.ParseShowRoundTrip` | backend/flaskr/__init__.py:224 | `int(str(n)) == n` for every integer, negative ones included. |
| `Queries.CategoryTypes` | backend/flaskr/__init__.py:79 | The `categories` list holds one type per category row, in row order. |
| `Queries.CategoryMap` | backend/flaskr/__init__.py:40-41 | The keys are exactly the category ids. Each key maps to the type of a category row with that id. |
| `Queries.CategoryMapLookup` | backend/flaskr/__init__.py:40-41 | With ids a primary key, each category's id maps to that category's type. |
| `Queries.GetCategories` | backend/flaskr/__init__.py:36-42 | Always 200. One entry per category id, so an empty store gives an empty map. |
| `Queries.GetQuestions` | backend/flaskr/__init__.py:67-81 | 404 exactly when the requested page is empty, including a page past the end and an empty table. Otherwise the page of the table, `total_questions` is the size of the whole table, and the category types are included. |
| `Queries.PageKeepsAscending` | backend/flaskr/__init__.py:62-63 | A page of an id-ordered selection is id-ordered. |
| `Queries.GetQuestionsOrdered` | backend/flaskr/__init__.py:69-81 | A 200 lists 1 to 10 questions in ascending id order. |
| `Queries.Matching` | backend/flaskr/__init__.py:143-144 | The search selection holds exactly the questions whose text contains the term, ignoring case. |
| `Queries.SearchQuestions` | backend/flaskr/__init__.py:141-155 | 404 exactly when no question text contains the term. Otherwise `total_questions` is the number of matches and the questions are the requested page of the matches. A page past the matches is a 200 with an empty list. |
| `Queries.SearchResultsSound` | backend/flaskr/__init__.py:143-153 | Every hit is a question of the table that matches the term, and the hits keep id order. |
| `Queries.FindCategory` | backend/flaskr/__init__.py:187-188 | Finds a category row with the requested id, or none exactly when no row has that id. |
| `Queries.InCategory` | backend/flaskr/__init__.py:190-191 | The selection holds exactly the questions of the table whose category equals the requested id. |
| `Queries.GetQuestionsByCategory` | backend/flaskr/__init__.py:185-203 | 404 exactly when the page of the category's questions is empty. 500 exactly when that page is non-empty and the category row is missing. A 200 lists only questions of that category: the requested page of them, their count, the category types and the category row itself. |
| `Queries.ByCategoryNoServerError` | backend/flaskr/__init__.py:187-202 | When every question's category exists, the endpoint never fails with 500. |
| `Queries.UnknownCategoryNotFound` | backend/flaskr/__init__.py:186-195 | When every question's category exists, a category id with no row gives 404. |
| `Queries.ByCategoryOrdered` | backend/flaskr/__init__.py:190-199 | A 200 lists its questions in ascending id order. |
| `Queries.IntItems` | backend/flaskr/__init__.py:227-233 | Accepts a list exactly when every item is an integer, and returns those integers in order. |
| `Queries.IdList` | backend/flaskr/__init__.py:222-233 | `previous_questions` is accepted exactly when it is a list of integers. The ids are then those integers, in order. |
| `Queries.ParseQuiz` | backend/flaskr/__init__.py:218-224 | A request parses exactly when the body is an object, `quiz_category` is an object whose `id` converts with `int()`, and `previous_questions` is a list of ids. The result carries exactly those values. |
| `Queries.IntItemsOfInts` | backend/flaskr/__init__.py:227-233 | A list of integers encoded as JSON decodes back to the same ids. |
| `Queries.ParseEncodeQuiz` | backend/flaskr/__init__.py:219-224 | The body the front end sends (category id as a string) parses back to the request it encodes. |
| `Queries.QuizPool` | backend/flaskr/__init__.py:226-233 | A question is in the pool exactly when it is in the table, its id is not in `previous_questions`, and its category is the requested one unless that is 0. |
| `Queries.GetQuizQuestion` | backend/flaskr/__init__.py:215-240 | 422 exactly when the body is malformed. Otherwise 200 with `null` exactly when no question is left in the pool, or else some question with an unseen id and, for a category other than 0, that category. |
| `Queries.QuizExampleParses` | backend/test_flaskr.py:128-137 | The test's body, with category `{"id": "1"}` and no previous questions, parses to category 1 with nothing excluded. |
| `Service.PageNumberRoundTrip` | backend/flaskr/__init__.py:58 | A page number written in the query string is the page requested. |
| `Service.IndexOfId` | backend/flaskr/__init__.py:94-95 | Finds the position of the row with the given id, or none exactly when no row has it. |
| `Service.WithoutMembers` | backend/flaskr/__init__.py:102 | After the delete, the table holds exactly the rows whose id differs from the deleted one. |
| `Service.RemoveAtIsWithout` | backend/flaskr/__init__.py:93-102 | When ids are unique, cutting out the row with an id removes that id and nothing else, and keeps the order of the rest. |
| `Service.CutKeepsAscending` | backend/flaskr/__init__.py:102 | Deleting a row from an id-ordered table leaves it id-ordered. |
| `Service.KeepAll` | backend/flaskr/__init__.py:99-100 | Deleting an absent id leaves the table as it is. |
| `Service.NewQuestionListed` | backend/flaskr/__init__.py:164-167 | A question added to a table of `n` rows is the last entry of page `n / 10 + 1`, and the page after it is empty, so it appears at the end of the last page as lines 117-119 promise. |
| `Service.TriviaService.constructor` | backend/flaskr/__init__.py:10-13 | The store starts from seeded, id-ordered tables with unique ids. |
| `Service.TriviaService.DeleteQuestion` | backend/flaskr/__init__.py:90-110 | Deleting an existing id removes exactly that row, keeps the others in order, shrinks the table by one and answers `deleted: id`. Deleting a missing id answers 422, not 404, because the `abort(404)` is raised inside the `try` that turns every exception into 422; nothing changes. |
| `Service.TriviaService.AddQuestion` | backend/flaskr/__init__.py:131-176 | A non-empty `searchTerm` runs the search and changes nothing. Otherwise, when the store accepts the row, one question with a fresh, larger id is appended and `total_questions` is the old count plus 1. When the store refuses it, the answer is 422 and nothing changes. |

## Left out

- Flask app construction, routing, CORS and the `after_request` headers are framework plumbing. So is JSON encoding: bodies are Dafny datatypes.
- The routes `/questions/<int:question_id>` and `/categories/<int:category_id>/questions` use the unsigned `int` converter, so a negative or non-numeric id never reaches a handler and routing answers 404. The handlers therefore take `nat` ids; that routing 404 is not modelled.
- SQLAlchemy, `setup_db` and `models.py` are replaced by in-memory sequences. `models.py` is not part of this model. Sessions, transactions and Postgres are not modelled.
- Service.TriviaService.AddQuestion: the store's verdict on a new row is the parameter `accepted`, because its column constraints live in `models.py`. New ids come from a counter above every existing id, as a serial key does.
- Service.TriviaService.AddQuestion: the create request always carries all four fields with their types. A missing field would be stored as null or refused, depending on `models.py`. A body that is not a JSON object, or a truthy non-string `searchTerm`, is not modelled either.
- Queries.SearchQuestions: `ilike` treats `%` and `_` in the term as wildcards, and the database folds case by its locale. The model tests plain substrings with ASCII case folding. The search query has no `order_by`, so its row order depends on the database; the model uses table (id) order.
- Queries.ParseQuiz: Python's `int()` also accepts surrounding whitespace, underscores between digits and floats. The model accepts an optional sign followed by decimal digits. `previous_questions` items that are not integers count as a failure (422). The database might coerce some of them.
- Queries.GetQuizQuestion: the random order (`func.random()`) becomes a nondeterministic choice of some question in the pool. Uniformity is not modelled.
- The category column is a string in the source (`str(category_id)` at line 191) but is compared with an integer at line 231. The model uses one integer category field.
- Service.TriviaService.DeleteQuestion: a store failure while deleting an existing row (which would also answer 422) is not modelled. The `print` at line 97 is left out.
- The `page` query argument reaches the handlers as an integer. `PageNumber` models how Flask reads it: 1 when absent or not an integer.
- The test module depends on a live database and is not modelled. `QuizExampleParses` checks that the request body of `test_get_quiz` parses.
