/** The stored question document (backend/models/question.model.js): its fields, its
    embedded answers, and the in-place updates the controllers make to it before
    saving. */
module QuestionModel {
  import opened Wrappers
  import opened Seqs
  import opened QuestionVotes

  type AnswerId = string

  /** Milliseconds since the epoch, as a `Date` field stores them. */
  type Timestamp = int

  /** One embedded answer. `votes` is absent until something sets it. */
  datatype Answer = Answer(
    id: AnswerId,
    answerBody: string,
    userAnswered: Option<string>,
    userId: UserId,
    answeredOn: Timestamp,
    votes: Option<int>)

  /** The position of the first answer whose id is `id`, or -1
      (`question.answer.id(answerId)`, which answers null when there is none). */
  function AnswerIndex(answers: seq<Answer>, id: AnswerId): (i: int)
    ensures -1 <= i < |answers|
    ensures i == -1 <==> forall k :: 0 <= k < |answers| ==> answers[k].id != id
    ensures 0 <= i ==> answers[i].id == id && forall k :: 0 <= k < i ==> answers[k].id != id
  {
    if answers == [] then -1
    else if answers[0].id == id then 0
    else
      var j := AnswerIndex(answers[1..], id);
      if j == -1 then -1 else j + 1
  }

  /** A question document as loaded from the store and updated in place. The fields no
      handler of this model changes after creation are constants. */
  class QuestionDoc {
    const questionTitle: string
    const description: string
    const questionTags: seq<string>
    var noOfAnswers: int
    var upVote: seq<UserId>
    var downVote: seq<UserId>
    const userId: UserId
    const userPosted: string
    const askedOn: Timestamp
    var answer: seq<Answer>

    /** The vote lists as a value. */
    function Votes(): Ledger
      reads this
    {
      Ledger(upVote, downVote)
    }

    /** The document invariants of the design: one vote per user, and the answer
        count equal to the number of embedded answers. */
    ghost predicate Valid()
      reads this
    {
      Exclusive(Votes()) && noOfAnswers == |answer|
    }

    /** A new question: `noOfAnswers` defaults to 0, both vote lists to empty, and no
        answers yet. */
    constructor (title: string, description: string, tags: seq<string>,
                 userId: UserId, userPosted: string, askedOn: Timestamp)
      ensures Valid()
      ensures questionTitle == title && this.description == description
      ensures questionTags == tags && this.userId == userId
      ensures this.userPosted == userPosted && this.askedOn == askedOn
      ensures Votes() == EmptyLedger && noOfAnswers == 0 && answer == []
    {
      questionTitle, this.description, questionTags := title, description, tags;
      this.userId, this.userPosted, this.askedOn := userId, userPosted, askedOn;
      noOfAnswers, upVote, downVote, answer := 0, [], [], [];
    }

    /** The body of `voteQuestion` once the document is loaded: both indices are taken
        from the lists as loaded, then the lists are filtered or pushed onto. */
    method Vote(user: UserId, value: Option<string>)
      modifies this`upVote, this`downVote
      ensures Votes() == CastVote(old(Votes()), user, value)
      ensures old(Valid()) ==> Valid()
    {
      ghost var before := Votes();
      var upIndex := IndexOf(upVote, user);
      var downIndex := IndexOf(downVote, user);
      if value == Some("upVote") {
        if downIndex != -1 {
          downVote := Without(downVote, user);
        } else {
          WithoutAbsent(downVote, user);
        }
        if upIndex == -1 {
          upVote := upVote + [user];
        } else {
          upVote := Without(upVote, user);
        }
      } else if value == Some("downVote") {
        if upIndex != -1 {
          upVote := Without(upVote, user);
        } else {
          WithoutAbsent(upVote, user);
        }
        if downIndex == -1 {
          downVote := downVote + [user];
        } else {
          downVote := Without(downVote, user);
        }
      }
      if Exclusive(before) {
        VotePreservesExclusive(before, user, value);
      }
    }

    /** `question.answer.push(a)` followed by `question.noOfAnswers = question.answer.length`. */
    method AddAnswer(a: Answer)
      modifies this`answer, this`noOfAnswers
      ensures answer == old(answer) + [a]
      ensures noOfAnswers == |answer| == |old(answer)| + 1
      ensures Exclusive(Votes()) ==> Valid()
    {
      answer := answer + [a];
      noOfAnswers := |answer|;
    }

    /** Stores `votes` as the count of the answer at position `i`. */
    method SetAnswerVotes(i: nat, votes: int)
      requires i < |answer|
      modifies this`answer
      ensures answer == old(answer)[i := old(answer)[i].(votes := Some(votes))]
      ensures old(Valid()) ==> Valid()
    {
      answer := answer[i := answer[i].(votes := Some(votes))];
    }
  }

  /** The objects a handler may update: the looked-up document, if any. */
  function Loaded(found: Option<QuestionDoc>): set<object> {
    if found.Some? then {found.value} else {}
  }
}
