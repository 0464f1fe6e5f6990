# StackIt question-and-answer forum — a Dafny model of its voting, answering and browsing logic

StackIt is a small forum. Users ask questions, answer them, and vote on both. The
backend is an Express/Mongoose service. A stored question document keeps:

- two lists of user ids, `upVote` and `downVote`;
- an embedded list of answers;
- an answer count, `noOfAnswers`.

The React frontend has three pages that matter here:

- the dashboard lists, searches, filters, sorts and paginates questions;
- the ask page keeps a tag list and checks the form before posting;
- the question page formats "time ago" labels, shows vote scores, posts answers and sends votes.

This project models that logic and proves what it promises:

- **Question votes** (`QuestionVotes`, `QuestionModel`, `QuestionController`):
  - The vote handler updates the loaded document in place. It is modelled as the
    method `QuestionDoc.Vote` on the class `QuestionDoc`.
  - `Vote` is proved equal to a declarative vote function, `CastVote`. The
    lemmas are stated about `CastVote`:
    - a user is never in both lists;
    - from no vote, voting the same way twice cancels;
    - a vote the other way flips the user's vote;
    - nobody else's votes change;
    - the score moves by the expected amount.
- **Answers** (`AnswerController`):
  - `GetAnswers` is the list projection.
  - `PostAnswer` appends exactly one answer and keeps `noOfAnswers` equal to the
    number of answers.
  - `VoteAnswer` is the counter update. The model has every error path: 400, 404 and 500.
- **Dashboard** (`Dashboard`):
  - the case-insensitive search;
  - the Unanswered filter;
  - the sorting filters, as an in-place insertion sort on an array, proved sorted and a permutation;
  - `Math.ceil` pagination and the JavaScript `slice` the page uses;
  - the strip of page buttons, with at most seven buttons, well formed, and always holding the current page;
  - the page-state handlers;
  - the page's local answer panel.
- **Ask page** (`AddQuestion`): adding, removing and keying tags (at most five, no
  duplicates) and the submit guard.
- **Question page** (`QuestionDetail`):
  - `formatTimeAgo`'s buckets;
  - the score arithmetic;
  - the answer box;
  - the request bodies the page sends, composed with what the backend does with them.
- **Support modules**:
  - `Wrappers`: Option, a reply, the request body;
  - `Seqs`: count, remove-all, `findIndex`, `filter`;
  - `Text`: the JavaScript `trim` whitespace set, ASCII lower-casing, `includes`, decimal digits.

How the I/O is modelled:

- **Database reads.** A handler's database read is an input, `found: Option<QuestionDoc>`.
  The write (`save`) is the in-place update of that object.
- **Id validity.** Whether a path id parses as an ObjectId is an input, `idIsValid`.
- **Request body.** The body is a `map<string, string>`. A missing field reads as `None`.

Where the code and the documented design disagree, the model follows the code:

- **Unknown question-vote value.** `voteQuestion` with any value other than
  "upVote"/"downVote" saves the unchanged document and answers 200. It is not
  rejected as invalid input.
- **Invalid ids.** In `getAnswers`, `postAnswer` and `voteAnswer`, a malformed id
  makes the Mongoose lookup throw. The handler answers 500, not 404.
- **Question description.** The ask page posts the editor's HTML as the description,
  not the `description` state variable.

## Model

| member | source | states |
|---|---|---|
| `QuestionVotes.CastVote` | backend/controllers/question.controllers.js:67-89 | an up vote removes the caller from the down list and toggles them in the up list; a down vote is the mirror image; any other value leaves both lists as they were |
| `QuestionVotes.VoteLeavesOthersAlone` | backend/controllers/question.controllers.js:67-89 | apart from the caller's own entries, both lists are the same before and after a vote |
| `QuestionVotes.VoteKeepsOtherCounts` | backend/controllers/question.controllers.js:67-89 | for any other user, the number of times they are in each list is unchanged |
| `QuestionVotes.VoteKeepsCallerAtMostOnce` | backend/controllers/question.controllers.js:67-89 | a caller who held at most one vote holds at most one afterwards, and is never in both lists |
| `QuestionVotes.VotePreservesExclusive` | backend/controllers/question.controllers.js:67-89 | the one-vote-per-user invariant of the whole document survives every vote |
| `QuestionVotes.RepeatVoteRestores` | backend/controllers/question.controllers.js:73-77 | a user who had not voted and presses the same button twice leaves the lists as they were |
| `QuestionVotes.FlipLeavesOneVote` | backend/controllers/question.controllers.js:67-89 | an up vote followed by a down vote leaves the caller out of the up list and at the end of the down list, and the mirror image holds |
| `QuestionVotes.VoteScoreChange` | backend/controllers/question.controllers.js:67-89 | up votes minus down votes moves by +1 for a fresh vote, -1 for taking one back, and ±2 for a flip; other values leave the score alone |
| `QuestionModel.AnswerIndex` | backend/controllers/answer.controller.js:75 | the index of the first embedded answer with the id, or -1 exactly when there is none |
| `QuestionModel.QuestionDoc.constructor` | backend/models/question.model.js:3-24 | a new document has no votes, no answers and an answer count of 0 |
| `QuestionModel.QuestionDoc.Vote` | backend/controllers/question.controllers.js:62-89 | the imperative findIndex/filter/push steps leave exactly the lists `CastVote` describes and keep the document valid |
| `QuestionModel.QuestionDoc.AddAnswer` | backend/controllers/answer.controller.js:48-49 | the answer is appended and the count becomes the new length, one more than before |
| `QuestionModel.QuestionDoc.SetAnswerVotes` | backend/controllers/answer.controller.js:76-81 | only the chosen answer's counter changes, and validity is kept |
| `QuestionController.VoteQuestion` | backend/controllers/question.controllers.js:47-97 | 404 for a malformed id or a missing question, with nothing changed; otherwise 200, the lists become `CastVote` of the body's `value`, answers untouched, validity kept |
| `AnswerController.Project` | backend/controllers/answer.controller.js:12-18 | each answer is sent with its id, body, author and ISO date, and its stored count, 0 when missing |
| `AnswerController.GetAnswers` | backend/controllers/answer.controller.js:4-24 | 500 for a malformed id and 404 for a missing question; otherwise 200 and one view per stored answer, in order, with its id, body, author and date, and a missing count shown as 0 |
| `AnswerController.HasContent` | backend/controllers/answer.controller.js:33-34 | a body passes the content check exactly when it has a non-empty `content` |
| `AnswerController.PostAnswer` | backend/controllers/answer.controller.js:27-63 | 400 without content and 500 for a malformed id, both with nothing changed; 404 for a missing question; otherwise 201, an echo of the new answer, exactly that answer appended, the count kept equal to the length, votes untouched |
| `AnswerController.AnswerVoteDelta` | backend/controllers/answer.controller.js:78-84 | only "up" and "down" are accepted; "up" is +1 and "down" is -1 |
| `AnswerController.VoteAnswer` | backend/controllers/answer.controller.js:66-91 | 500 for a malformed id; 404 when no document holds the answer, which is what a well-formed but unknown answer id gives; 400 for a bad direction; all with nothing changed; otherwise 200 and the new count, with only that answer's counter moved by ±1. The 500 for a found document without the answer cannot arise from the `"answer._id"` lookup and is kept only as the null-answer path of lines 75-76 |
| `Dashboard.MatchesSearch` | frontend/src/pages/Dashboard.jsx:109-114 | the test used for one question; an empty term matches every question |
| `Dashboard.SearchIgnoresCase` | frontend/src/pages/Dashboard.jsx:110-113 | a term and its lowercase form match the same questions |
| `Dashboard.Search` | frontend/src/pages/Dashboard.jsx:106-116 | an empty term keeps every question; otherwise exactly the questions whose title, description or a tag contains the term, ignoring case |
| `Dashboard.SearchKeepsExactlyMatches` | frontend/src/pages/Dashboard.jsx:106-116 | the search keeps each matching question as many times as it occurs and drops the others, and searching a concatenation is concatenating the searches |
| `Dashboard.UnansweredKeepsExactlyUnanswered` | frontend/src/pages/Dashboard.jsx:123-125 | the Unanswered filter keeps exactly the questions with zero answers, with their multiplicity and order, and applying it again changes nothing |
| `Dashboard.ByAnswers` | frontend/src/pages/Dashboard.jsx:127 | the Active and Frequent comparator is positive exactly when the first question has fewer answers, and zero exactly on equal counts |
| `Dashboard.ByDoubledAnswers` | frontend/src/pages/Dashboard.jsx:130 | the Votes comparator has the same sign as the Active one: positive exactly when the first question has fewer answers, zero on equal counts |
| `Dashboard.ComparatorsPutMoreAnswersFirst` | frontend/src/pages/Dashboard.jsx:126-134 | both comparators the page uses order by answer count, descending |
| `Dashboard.InsertAt` | frontend/src/pages/Dashboard.jsx:127 | one insertion step extends the sorted prefix by one and permutes the array |
| `Dashboard.SortInPlace` | frontend/src/pages/Dashboard.jsx:126-134 | the in-place sort leaves the questions in descending answer order and is a permutation |
| `Dashboard.SortedCopy` | frontend/src/pages/Dashboard.jsx:126-134 | sorting a copy gives a sorted permutation of the input |
| `Dashboard.FilteredQuestions` | frontend/src/pages/Dashboard.jsx:103-138 | search first; then Unanswered filters, Active/Votes/Frequent sort, and Newest or an unknown filter keeps search order |
| `Dashboard.TotalPages` | frontend/src/pages/Dashboard.jsx:141 | the page count is the least number of three-question pages that holds every question |
| `Dashboard.SliceBound` | frontend/src/pages/Dashboard.jsx:142-145 | a slice index in [0, len] is itself, one past the end is len, a negative one counts back from len, and one before the start is 0 |
| `Dashboard.Slice` | frontend/src/pages/Dashboard.jsx:142-145 | `slice` gives the elements from the start bound up to the end bound, and none when the end bound is not past the start bound |
| `Dashboard.PageOf` | frontend/src/pages/Dashboard.jsx:142-145 | any page, even one out of range, shows at most three questions, and a page at or before 0 of a list of at most three shows none |
| `Dashboard.PageShowsItsThree` | frontend/src/pages/Dashboard.jsx:142-145 | page p shows questions 3(p-1) onwards, at most three of them, and is non-empty exactly when p is within the page count |
| `Dashboard.EveryItemOnItsPage` | frontend/src/pages/Dashboard.jsx:141-145 | every question appears on a page within range, at the expected position |
| `Dashboard.RunIsWellFormed` | frontend/src/pages/Dashboard.jsx:166-169 | the plain run 1..total is a well-formed button strip |
| `Dashboard.HeadStripIsWellFormed` | frontend/src/pages/Dashboard.jsx:171-176 | 1..5, a gap, then the last page is well formed |
| `Dashboard.TailStripIsWellFormed` | frontend/src/pages/Dashboard.jsx:177-182 | the first page, a gap, then the last five pages is well formed |
| `Dashboard.MiddleStripIsWellFormed` | frontend/src/pages/Dashboard.jsx:183-191 | the first page, a gap, the current page with its neighbours, a gap, then the last page is well formed |
| `Dashboard.RenderPagination` | frontend/src/pages/Dashboard.jsx:162-195 | up to seven pages lists them all; beyond that exactly seven items: 1 to 5, a gap and the last page while the current page is at most 4; then the first page, a gap and the last five pages when the current page is among the last four; otherwise the first page, a gap, the current page with its neighbours, a gap and the last page; every strip starts at 1, ends at the last page, increases, has gaps only where pages are skipped and shows the current page |
| `Dashboard.HandleFilterChange` | frontend/src/pages/Dashboard.jsx:151-155 | choosing a filter closes the menu and goes back to page 1, which is always in range |
| `Dashboard.HandleSearch` | frontend/src/pages/Dashboard.jsx:157-160 | typing a search goes back to page 1, which is always in range |
| `Dashboard.InitialListStateInRange` | frontend/src/pages/Dashboard.jsx:7-10 | the list view starts with no search on page 1, which is in range |
| `Dashboard.HandlePageClick` | frontend/src/pages/Dashboard.jsx:147-149 | a click changes only the page; from a page in range and with a button in range, the new page is in range |
| `Dashboard.PrevPage` | frontend/src/pages/Dashboard.jsx:607 | "previous" leads to the least page that is at least 1 and at least one before the current page |
| `Dashboard.NextPage` | frontend/src/pages/Dashboard.jsx:635 | "next" leads to the greatest page that is at most the last page and at most one after the current page |
| `Dashboard.ClickedPage` | frontend/src/pages/Dashboard.jsx:614-619 | a page button leads to its own page, a gap stays on the current page, and from a page in range every button in range leads to a page in range |
| `Dashboard.PrevNextClamp` | frontend/src/pages/Dashboard.jsx:607-637 | previous and next stay within 1..total, and stop at the ends |
| `Dashboard.PageClickStaysInRange` | frontend/src/pages/Dashboard.jsx:606-641 | from a page in range, any click on previous, next or a strip button leads to a page in range; a gap does nothing |
| `Dashboard.SubmitLocalAnswer` | frontend/src/pages/Dashboard.jsx:231-244 | a blank answer changes nothing; otherwise exactly one answer is appended, with the next id, 0 votes and "just now", and the box is cleared |
| `Dashboard.VoteLocal` | frontend/src/pages/Dashboard.jsx:246-254 | votes keep the list's length, ids and contents |
| `Dashboard.InitialPanelIsNumbered` | frontend/src/pages/Dashboard.jsx:208-229 | the panel starts with its answers numbered 1, 2 and an empty box |
| `Dashboard.PanelKeepsNumbering` | frontend/src/pages/Dashboard.jsx:231-254 | answers stay numbered 1..n through submitting and voting |
| `Dashboard.VoteLocalChangesOne` | frontend/src/pages/Dashboard.jsx:246-254 | a vote moves only the chosen answer's count, by +1 for "up" and -1 otherwise; an unknown id changes nothing |
| `AddQuestion.AddTag` | frontend/src/pages/AddQuestion.jsx:79-84 | a tag is appended, and the box cleared, exactly when it is non-empty, new, and fewer than five tags exist; otherwise nothing changes |
| `AddQuestion.RemoveTag` | frontend/src/pages/AddQuestion.jsx:86-88 | every copy of the tag goes and every other tag stays |
| `AddQuestion.RemoveTagKeepsOthersInOrder` | frontend/src/pages/AddQuestion.jsx:86-88 | every other tag keeps all its copies and the removed tag has none; removing from a concatenation is removing from each part, so the others keep their order |
| `AddQuestion.RemoveTagsCommute` | frontend/src/pages/AddQuestion.jsx:86-88 | removing two tags gives the same list in either order |
| `AddQuestion.HandleKeyPress` | frontend/src/pages/AddQuestion.jsx:90-95 | Enter adds the box's text as a tag; any other key does nothing |
| `AddQuestion.TagEditsKeepTagsValid` | frontend/src/pages/AddQuestion.jsx:79-95 | adding, removing and Enter keep at most five tags and no duplicates |
| `AddQuestion.AddTagTwiceIsOnce` | frontend/src/pages/AddQuestion.jsx:80 | adding the same tag again changes nothing |
| `AddQuestion.RemoveUndoesAdd` | frontend/src/pages/AddQuestion.jsx:79-88 | removing a tag just added restores the tags |
| `AddQuestion.HandleSubmit` | frontend/src/pages/AddQuestion.jsx:123-137 | nothing is posted exactly when the title or the editor's HTML is blank, or there are no tags; otherwise the payload is the title, that HTML and the tags |
| `QuestionDetail.Bucket` | frontend/src/pages/QuestionDetail.jsx:56-71 | the buckets partition all differences at 60, 3600, 86400, 2592000 and 31536000 seconds; each count is the whole number of units elapsed and stays within its bucket's range |
| `QuestionDetail.FormatTimeAgo` | frontend/src/pages/QuestionDetail.jsx:56-71 | "just now" exactly below one minute, otherwise the count followed by the unit |
| `QuestionDetail.TimeAgoCountReadsBack` | frontend/src/pages/QuestionDetail.jsx:62-70 | past one minute the label begins with digits that read back as the whole number of units elapsed |
| `QuestionDetail.QuestionScore` | frontend/src/pages/QuestionDetail.jsx:34-35 | the shown question score (computed again at lines 101-102 and shown at line 192) is the stored ledger's up votes minus down votes, with a missing list counting as empty |
| `QuestionDetail.VoteBody` | frontend/src/pages/QuestionDetail.jsx:94-96 | a vote request, for a question or at lines 111-113 for an answer, carries the direction under `value` and has no `direction` field |
| `QuestionDetail.QuestionVoteMovesShownScore` | frontend/src/pages/QuestionDetail.jsx:94-107 | a button press sent as `{value}`, applied by the server and read back moves the shown score by ±1, or ±2 for a flip |
| `QuestionDetail.AnswerScore` | frontend/src/pages/QuestionDetail.jsx:277 | the answer formula is up votes minus down votes, a missing field counting as 0 |
| `QuestionDetail.NumberField` | backend/controllers/answer.controller.js:12-18 | a server answer has a numeric `votes` field and no other numeric field |
| `QuestionDetail.ShownAnswerScoreAsWritten` | frontend/src/pages/QuestionDetail.jsx:277 | the page's answer score is always 0 |
| `QuestionDetail.ShownAnswerScoreIgnoresVotes` | frontend/src/pages/QuestionDetail.jsx:277 | an answer stored with 12 votes is shown with score 0 |
| `QuestionDetail.ShownAnswerScore` | backend/controllers/answer.controller.js:16 | the corrected score is the `votes` count the server sends |
| `QuestionDetail.ShownAnswerScoreFollowsVotes` | backend/controllers/answer.controller.js:16 | the corrected score shows the stored count, 0 when missing, and moves with each accepted vote |
| `QuestionDetail.AnswerVoteFromPageIsRejected` | frontend/src/pages/QuestionDetail.jsx:109-120 | the body the page sends never contains a direction the server accepts |
| `QuestionDetail.AnswerVoteBody` | backend/controllers/answer.controller.js:69 | the corrected body carries "up" or "down" under `direction` and has no `value` field |
| `QuestionDetail.AnswerVoteBodyIsAccepted` | backend/controllers/answer.controller.js:69-84 | a `{direction}` body of "up" or "down" is accepted as +1 or -1 |
| `QuestionDetail.AnswerRequestBody` | frontend/src/pages/QuestionDetail.jsx:80-82 | the posted body carries the box text under `content` |
| `QuestionDetail.SubmitAnswer` | frontend/src/pages/QuestionDetail.jsx:77-91 | a blank answer is not posted and changes nothing; an accepted post appends the server's answer and clears the box; a failed post changes nothing |
| `QuestionDetail.PostedAnswerHasContent` | frontend/src/pages/QuestionDetail.jsx:77-82 | anything the page posts passes the server's content check |
| `Seqs.Without` | backend/controllers/question.controllers.js:69-71 | `filter(id => id !== user)` removes every copy of the user, keeps every other element, and shrinks by the number of copies |
| `Seqs.IndexOf` | backend/controllers/question.controllers.js:62-65 | `findIndex` gives the first position of the element, or -1 exactly when it is absent |
| `Seqs.Filter` | frontend/src/pages/Dashboard.jsx:108-115 | `filter` keeps only elements that satisfy the test, keeps every such element, and never grows the list |
| `Seqs.CountIsMultiplicity` | frontend/src/pages/AddQuestion.jsx:80 | the number of copies of a value that the no-duplicate check counts is its multiplicity in the list |
| `Seqs.WithoutMultiset` | backend/controllers/question.controllers.js:69-71 | `filter(id => id !== user)` keeps every copy of every other element and none of the user |
| `Text.Decimal` | frontend/src/pages/QuestionDetail.jsx:63 | the printed count is only digits, "0" for zero and without a leading zero otherwise |
| `Text.DecimalReadsBack` | frontend/src/pages/QuestionDetail.jsx:63 | reading the printed digits back gives the number |
| `Text.Trim` | frontend/src/pages/AddQuestion.jsx:128 | `trim()` never lengthens the text, leaves no whitespace at either end, and gives the empty string exactly when the text is all whitespace |
| `Text.Lower` | frontend/src/pages/Dashboard.jsx:110-113 | `toLowerCase` keeps the length, leaves no ASCII capital, and leaves every other character as it was |
| `Text.LowerIdempotent` | frontend/src/pages/Dashboard.jsx:110-113 | lowercasing twice is lowercasing once |
| `Text.Includes` | frontend/src/pages/Dashboard.jsx:110-113 | `includes` holds for the empty needle and for the whole string, and never for a needle longer than the text |
| `Wrappers.Field` | backend/controllers/question.controllers.js:49 | reading a body field gives its value when the field is present and nothing otherwise |

## Left out

- **Persistence and I/O.**
  - Mongoose and MongoDB, the HTTP layer, axios, toasts and navigation are not modelled.
  - A database read is the input `found`. `save()` is the in-place update.
  - A failing `save()` (which would answer 500) is not modelled.
- **ObjectId validation** (`mongoose.Types.ObjectId.isValid`, and the CastError a
  lookup throws on a malformed id) is the boolean input `idIsValid`.
- **`voteAnswer`'s lookup.** It finds the document by the answer's id, so a found
  document holds that answer. The model also states that it would answer 500 if
  the answer were absent.
- **The 400 path of `voteAnswer`.** The in-memory default `votes = 0` on that path is
  never saved. The model treats the document as its stored state, which is unchanged.
- **Schema strict mode.** The answer subdocument schema declares no `votes` path, so
  Mongoose would drop the counter on save. The model keeps the counter as the
  handlers write it.
- **Sessions.** Authentication, token parsing and sessions are not modelled. `req.user`
  is an `Identity`. Its `username` is optional because the token carries none.
- **Concurrency.** Two requests racing on one document can lose an update. This is
  not modelled.
- **Clock and dates.** The clock, `new Date()` and ISO date formatting are not
  modelled. The time of a request and the difference in whole seconds are inputs.
  A server date is kept as a number.
- **Sorting.**
  - Dafny cannot call JavaScript's `Array.prototype.sort`.
  - The comparator sorts are modelled by one insertion sort with adjacent swaps. It is proved sorted by answer count and a permutation.
  - `Dashboard.SortInPlace`: stability is not proved. It is also not proved that equal-answer questions keep the order JavaScript's sort gives them.
- **Text.**
  - `toLowerCase` is modelled for ASCII letters only. No Unicode case mapping is modelled.
  - `trim` is modelled over the full ECMAScript whitespace and line-terminator set.
- **The rest of the UI.** Markup, styling and dropdown visibility beyond the state flag are not modelled.
- **The editor.** The rich-text editor (`execCommand`, emoji, links, image upload) is
  not modelled. Its HTML is an input to `AddQuestion.HandleSubmit`.
- **Question-page data handling.**
  - The question page's fetch-and-transform step is not modelled. Only the score fields that feed the shown score are.
  - The re-fetch after a vote is modelled as reading the stored lists back.
- **Response texts.** Response message texts are not modelled. Replies carry a status
  and the data the caller reads.
- **Handlers outside this model.** `AskQuestion`, `getAllQuestion`,
  `deleteQuestion` and the authentication controllers are not part of this model.
  `getQuestionById` is imported by backend/routes/question.routes.js:7 but is not
  defined in backend/controllers/question.controllers.js.
- **`e.preventDefault()`** is not modelled.

## Findings

| source | as written | input that shows it | evidently intended | confidence | as-written member | corrected member |
|---|---|---|---|---|---|---|
| frontend/src/pages/QuestionDetail.jsx:277 | the answer score is the answer's `upVotes` minus its `downVotes`, each 0 when missing, but answers from the server carry only `votes` | a stored answer with `votes: 12` is shown with score 0 | show the server's `votes` count | high (not executed) | `QuestionDetail.ShownAnswerScoreIgnoresVotes` | `QuestionDetail.ShownAnswerScoreFollowsVotes` |
| frontend/src/pages/QuestionDetail.jsx:111-113 | answer votes post `{value: "upVote"}` or `{value: "downVote"}`, but the server reads `direction` and accepts only "up" or "down" | pressing up on any answer: `direction` is missing and the server answers 400 | post `{direction: "up"}` or `{direction: "down"}` | high (not executed) | `QuestionDetail.AnswerVoteFromPageIsRejected` | `QuestionDetail.AnswerVoteBodyIsAccepted` |
