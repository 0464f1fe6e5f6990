/** backend/controllers/answer.controller.js: listing, posting and voting on the answers
    embedded in a question. As in `QuestionController`, the store lookup is an input
    (`found`) and whether the id parses as an ObjectId is an input (`idIsValid`); these
    handlers look up without checking first, so a malformed id makes the lookup throw,
    and the handler's catch answers 500. */
module AnswerController {
  import opened Wrappers
  import opened QuestionVotes
  import opened QuestionModel

  /** `req.user` as the session middleware sets it. The signed token carries
      `{email, id, role}` and no user name, so `username` is None for real sessions. */
  datatype Identity = Identity(id: UserId, username: Option<string>)

  /** The `timeAgo` field of an answer as the server sends it: the ISO form of the stored
      date from `getAnswers`, the literal "just now" from `postAnswer`. */
  datatype TimeLabel = Iso(at: Timestamp) | JustNow

  /** An answer as the API sends it to clients. */
  datatype AnswerView = AnswerView(
    id: AnswerId,
    content: string,
    author: Option<string>,
    votes: int,
    timeAgo: TimeLabel)

  /** One element of the `getAnswers` projection; `ans.votes || 0` sends 0 for a
      missing count. */
  function Project(a: Answer): (v: AnswerView)
    ensures v.id == a.id && v.content == a.answerBody && v.author == a.userAnswered
    ensures a.votes.Some? ==> v.votes == a.votes.value
    ensures a.votes.None? ==> v.votes == 0
    ensures v.timeAgo == Iso(a.answeredOn)
  {
    AnswerView(a.id, a.answerBody, a.userAnswered, a.votes.GetOr(0), Iso(a.answeredOn))
  }

  /** GET /questions/:id/answers. */
  function GetAnswers(idIsValid: bool, found: Option<QuestionDoc>): (r: Reply<seq<AnswerView>>)
    reads Loaded(found)
    ensures !idIsValid ==> r == Error(SERVER_ERROR)
    ensures idIsValid && found.None? ==> r == Error(NOT_FOUND)
    ensures idIsValid && found.Some? ==>
      && r.Ok? && r.status == OK
      && |r.value| == |found.value.answer|
      && forall k :: 0 <= k < |r.value| ==>
           && r.value[k].id == found.value.answer[k].id
           && r.value[k].content == found.value.answer[k].answerBody
           && r.value[k].author == found.value.answer[k].userAnswered
           && r.value[k].timeAgo == Iso(found.value.answer[k].answeredOn)
           && r.value[k].votes == (if found.value.answer[k].votes.Some? then found.value.answer[k].votes.value else 0)
  {
    if !idIsValid then Error(SERVER_ERROR)
    else if found.None? then Error(NOT_FOUND)
    else
      var answers := found.value.answer;
      Ok(OK, seq(|answers|, k requires 0 <= k < |answers| => Project(answers[k])))
  }

  /** `if (!content)`: the body's `content` is missing or empty. */
  predicate HasContent(body: Body): (b: bool)
    ensures b <==> Field(body, "content").Some? && |Field(body, "content").value| > 0
  {
    "content" in body && body["content"] != ""
  }

  /** POST /questions/:id/answer with body `{content}`. `newId` is the id the store
      assigns to the pushed answer and `now` the time of the request. */
  method PostAnswer(idIsValid: bool, found: Option<QuestionDoc>, user: Identity, body: Body,
                    newId: AnswerId, now: Timestamp)
    returns (reply: Reply<AnswerView>)
    modifies Loaded(found)
    ensures !HasContent(body) ==>
      reply == Error(BAD_REQUEST) && (found.Some? ==> unchanged(found.value))
    ensures HasContent(body) && !idIsValid ==>
      reply == Error(SERVER_ERROR) && (found.Some? ==> unchanged(found.value))
    ensures HasContent(body) && idIsValid && found.None? ==> reply == Error(NOT_FOUND)
    ensures HasContent(body) && idIsValid && found.Some? ==>
      var content := body["content"];
      && reply == Ok(CREATED, AnswerView(newId, content, user.username, 0, JustNow))
      && found.value.answer
           == old(found.value.answer) + [Answer(newId, content, user.username, user.id, now, Some(0))]
      && found.value.noOfAnswers == |found.value.answer| == |old(found.value.answer)| + 1
      && found.value.Votes() == old(found.value.Votes())
      && (old(found.value.Valid()) ==> found.value.Valid())
  {
    if !HasContent(body) {
      return Error(BAD_REQUEST);
    }
    var content := body["content"];
    if !idIsValid {
      return Error(SERVER_ERROR);
    }
    if found.None? {
      return Error(NOT_FOUND);
    }
    var question := found.value;
    var newAnswer := Answer(newId, content, user.username, user.id, now, Some(0));
    question.AddAnswer(newAnswer);
    reply := Ok(CREATED, AnswerView(question.answer[|question.answer| - 1].id, content,
                                    user.username, 0, JustNow));
  }

  /** The counter step of `voteAnswer`: "up" adds one, "down" subtracts one, and any
      other direction, or none, is rejected. */
  function AnswerVoteDelta(direction: Option<string>): (d: Option<int>)
    ensures d.Some? <==> direction == Some("up") || direction == Some("down")
    ensures direction == Some("up") ==> d == Some(1)
    ensures direction == Some("down") ==> d == Some(-1)
  {
    if direction == Some("up") then Some(1)
    else if direction == Some("down") then Some(-1)
    else None
  }

  /** POST /questions/answers/:answerId/vote with body `{direction}`. The counter has no
      record of who voted: every call moves it. */
  method VoteAnswer(idIsValid: bool, found: Option<QuestionDoc>, answerId: AnswerId, body: Body)
    returns (reply: Reply<int>)
    modifies Loaded(found)
    ensures !idIsValid ==> reply == Error(SERVER_ERROR) && (found.Some? ==> unchanged(found.value))
    ensures idIsValid && found.None? ==> reply == Error(NOT_FOUND)
    ensures idIsValid && found.Some? && AnswerIndex(old(found.value.answer), answerId) == -1 ==>
      reply == Error(SERVER_ERROR) && unchanged(found.value)
    ensures idIsValid && found.Some? && AnswerIndex(old(found.value.answer), answerId) >= 0 ==>
      var i := AnswerIndex(old(found.value.answer), answerId);
      var before := old(found.value.answer)[i];
      match AnswerVoteDelta(Field(body, "direction"))
      case None => reply == Error(BAD_REQUEST) && unchanged(found.value)
      case Some(d) =>
        && reply == Ok(OK, before.votes.GetOr(0) + d)
        && found.value.answer == old(found.value.answer)[i := before.(votes := Some(reply.value))]
        && found.value.Votes() == old(found.value.Votes())
        && found.value.noOfAnswers == old(found.value.noOfAnswers)
        && (old(found.value.Valid()) ==> found.value.Valid())
  {
    if !idIsValid {
      return Error(SERVER_ERROR);
    }
    if found.None? {
      return Error(NOT_FOUND);
    }
    var question := found.value;
    var i := AnswerIndex(question.answer, answerId);
    if i == -1 {
      // `answer` is null and reading `answer.votes` throws.
      return Error(SERVER_ERROR);
    }
    var votes := question.answer[i].votes.GetOr(0);
    var direction := Field(body, "direction");
    if direction == Some("up") {
      votes := votes + 1;
    } else if direction == Some("down") {
      votes := votes - 1;
    } else {
      return Error(BAD_REQUEST);
    }
    question.SetAnswerVotes(i, votes);
    reply := Ok(OK, votes);
  }
}
