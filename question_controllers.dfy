/** backend/controllers/question.controllers.js: the `voteQuestion` handler. The store
    lookup (`Question.findById`) and the id check (`mongoose.Types.ObjectId.isValid`)
    are inputs: `found` is what the lookup returned, `idIsValid` what the check said.
    The document object stands for the stored question, so the final `save` is the
    state the method leaves it in. */
module QuestionController {
  import opened Wrappers
  import opened QuestionVotes
  import opened QuestionModel

  /** PATCH /questions/vote/:id with body `{value}` by the signed-in `user`. */
  method VoteQuestion(idIsValid: bool, found: Option<QuestionDoc>, user: UserId, body: Body)
    returns (status: int)
    modifies Loaded(found)
    ensures !idIsValid || found.None? ==> status == NOT_FOUND
    ensures !idIsValid && found.Some? ==> unchanged(found.value)
    ensures idIsValid && found.Some? ==>
      && status == OK
      && found.value.Votes() == CastVote(old(found.value.Votes()), user, Field(body, "value"))
      && found.value.answer == old(found.value.answer)
      && found.value.noOfAnswers == old(found.value.noOfAnswers)
      && (old(found.value.Valid()) ==> found.value.Valid())
  {
    if !idIsValid {
      return NOT_FOUND;
    }
    if found.None? {
      return NOT_FOUND;
    }
    var question := found.value;
    question.Vote(user, Field(body, "value"));
    status := OK;
  }
}
