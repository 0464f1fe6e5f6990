/** frontend/src/pages/QuestionDetail.jsx: the "time ago" label, the vote scores it
    shows, the answer box, and the bodies it sends for votes, composed with what the
    backend handlers do with them. */
module QuestionDetail {
  import opened Wrappers
  import opened Seqs
  import opened Text
  import opened QuestionVotes
  import QuestionModel
  import AnswerController

  // ---------------------------------------------------------------------------
  // formatTimeAgo

  /** The bucket `formatTimeAgo` puts a difference in, with its count. */
  datatype Elapsed = Now | Minutes(n: nat) | Hours(n: nat) | Days(n: nat) | Months(n: nat) | Years(n: nat)

  /** The length of one unit of a bucket, in seconds (30-day months, 365-day years). */
  function UnitSeconds(e: Elapsed): nat {
    match e
    case Now => 1
    case Minutes(_) => 60
    case Hours(_) => 3600
    case Days(_) => 86400
    case Months(_) => 2592000
    case Years(_) => 31536000
  }

  /** The guarded returns of `formatTimeAgo` over the difference in whole seconds: the
      thresholds are tried in order, the buckets cover every difference, the count is the
      whole number of units elapsed, and within its bucket it stays below the next unit. */
  function Bucket(diffInSeconds: int): (e: Elapsed)
    ensures e == Now <==> diffInSeconds < 60
    ensures e.Minutes? <==> 60 <= diffInSeconds < 3600
    ensures e.Hours? <==> 3600 <= diffInSeconds < 86400
    ensures e.Days? <==> 86400 <= diffInSeconds < 2592000
    ensures e.Months? <==> 2592000 <= diffInSeconds < 31536000
    ensures e.Years? <==> 31536000 <= diffInSeconds
    ensures e != Now ==> e.n * UnitSeconds(e) <= diffInSeconds < (e.n + 1) * UnitSeconds(e)
    ensures e.Minutes? ==> 1 <= e.n <= 59
    ensures e.Hours? ==> 1 <= e.n <= 23
    ensures e.Days? ==> 1 <= e.n <= 29
    ensures e.Months? ==> 1 <= e.n <= 12
    ensures e.Years? ==> 1 <= e.n
  {
    if diffInSeconds < 60 then Now
    else if diffInSeconds < 3600 then Minutes(diffInSeconds / 60)
    else if diffInSeconds < 86400 then Hours(diffInSeconds / 3600)
    else if diffInSeconds < 2592000 then Days(diffInSeconds / 86400)
    else if diffInSeconds < 31536000 then Months(diffInSeconds / 2592000)
    else Years(diffInSeconds / 31536000)
  }

  /** `formatTimeAgo`'s text: "just now" exactly below one minute, otherwise
      "<count> <unit>s ago" (the page always uses the plural). */
  function FormatTimeAgo(diffInSeconds: int): (s: string)
    ensures s == "just now" <==> diffInSeconds < 60
    ensures diffInSeconds >= 60 ==> s == Decimal(Bucket(diffInSeconds).n) + UnitSuffix(Bucket(diffInSeconds))
  {
    var e := Bucket(diffInSeconds);
    if e == Now then "just now" else Decimal(e.n) + UnitSuffix(e)
  }

  /** Past one minute the label starts with digits that read back as the whole number of
      units elapsed, `Math.floor(diffInSeconds / unit)`. */
  lemma TimeAgoCountReadsBack(diffInSeconds: int)
    requires diffInSeconds >= 60
    ensures var e := Bucket(diffInSeconds);
      && FormatTimeAgo(diffInSeconds)[..|Decimal(e.n)|] == Decimal(e.n)
      && DigitsValue(Decimal(e.n)) == e.n == diffInSeconds / UnitSeconds(e)
  {
    DecimalReadsBack(Bucket(diffInSeconds).n);
  }

  function UnitSuffix(e: Elapsed): string {
    match e
    case Now => ""
    case Minutes(_) => " minutes ago"
    case Hours(_) => " hours ago"
    case Days(_) => " days ago"
    case Months(_) => " months ago"
    case Years(_) => " years ago"
  }

  // ---------------------------------------------------------------------------
  // Scores

  /** The question score shown: `upVote?.length || 0` minus `downVote?.length || 0`. It
      is the ledger's score, a missing list reading as no votes. */
  function QuestionScore(upVote: Option<seq<UserId>>, downVote: Option<seq<UserId>>): (r: int)
    ensures r == Score(Ledger(upVote.GetOr([]), downVote.GetOr([])))
    ensures upVote.None? && downVote.None? ==> r == 0
  {
    (if upVote.Some? then |upVote.value| else 0) - (if downVote.Some? then |downVote.value| else 0)
  }

  /** The body both `handleQuestionVote` and `handleAnswerVote` send: `{value: direction}`,
      with direction "upVote" or "downVote". */
  function VoteBody(direction: string): (r: Body)
    ensures Field(r, "value") == Some(direction)
    ensures Field(r, "direction").None?
  {
    map["value" := direction]
  }

  /** A press of the question's up or down button, sent to `voteQuestion` and read back,
      moves the shown score by one for a fresh vote, takes it back for a repeated one
      and moves it by two for a flip. */
  lemma QuestionVoteMovesShownScore(l: Ledger, u: UserId, direction: string)
    requires direction == "upVote" || direction == "downVote"
    requires Count(l.upVote, u) + Count(l.downVote, u) <= 1
    ensures var after := CastVote(l, u, Field(VoteBody(direction), "value"));
      QuestionScore(Some(after.upVote), Some(after.downVote)) - QuestionScore(Some(l.upVote), Some(l.downVote))
        == if direction == "upVote"
           then (if u in l.upVote then -1 else if u in l.downVote then 2 else 1)
           else (if u in l.downVote then 1 else if u in l.upVote then -2 else -1)
  {
    VoteScoreChange(l, u, Some(direction));
  }

  /** An answer's score as a formula: `(upVotes || 0) - (downVotes || 0)`. */
  function AnswerScore(upVotes: Option<int>, downVotes: Option<int>): (r: int)
    ensures upVotes.Some? && downVotes.Some? ==> r == upVotes.value - downVotes.value
    ensures upVotes.None? ==> r == -downVotes.GetOr(0)
    ensures downVotes.None? ==> r == upVotes.GetOr(0)
  {
    upVotes.GetOr(0) - downVotes.GetOr(0)
  }

  /** Reading a numeric field of an answer object as the server sends it: the object has
      `id`, `content`, `author`, `votes` and `timeAgo`, and only `votes` is a number, so
      any other name reads as missing. */
  function NumberField(v: AnswerController.AnswerView, name: string): (r: Option<int>)
    ensures r.Some? <==> name == "votes"
    ensures r.Some? ==> r.value == v.votes
  {
    if name == "votes" then Some(v.votes) else None
  }

  /** The answer score as the page computes it from a server answer:
      `(answer.upVotes || 0) - (answer.downVotes || 0)`; neither field exists, so the
      score is 0 whatever the answer's count. */
  function ShownAnswerScoreAsWritten(v: AnswerController.AnswerView): (s: int)
    ensures s == 0
  {
    AnswerScore(NumberField(v, "upVotes"), NumberField(v, "downVotes"))
  }

  /** An answer whose stored count is 12 is shown with score 0. */
  lemma ShownAnswerScoreIgnoresVotes()
    ensures var v := AnswerController.Project(
              QuestionModel.Answer("a1", "text", None, "u1", 0, Some(12)));
            v.votes == 12 && ShownAnswerScoreAsWritten(v) == 0
  {
  }

  /** The answer score the page evidently means to show: the count the server sends. */
  function ShownAnswerScore(v: AnswerController.AnswerView): (r: int)
    ensures r == v.votes
  {
    NumberField(v, "votes").GetOr(0)
  }

  /** The corrected score shows the stored count, missing counts as 0, and moves with
      every accepted answer vote. */
  lemma ShownAnswerScoreFollowsVotes(a: QuestionModel.Answer, direction: Option<string>)
    ensures ShownAnswerScore(AnswerController.Project(a)) == a.votes.GetOr(0)
    ensures AnswerController.AnswerVoteDelta(direction).Some? ==>
      var d := AnswerController.AnswerVoteDelta(direction).value;
      ShownAnswerScore(AnswerController.Project(a.(votes := Some(a.votes.GetOr(0) + d))))
        == ShownAnswerScore(AnswerController.Project(a)) + d
  {
  }

  // ---------------------------------------------------------------------------
  // Answer votes: what the page sends and what the server reads

  /** The server reads `direction`, which the page's `{value}` body lacks, so `voteAnswer`
      rejects every answer vote from this page with 400. */
  lemma AnswerVoteFromPageIsRejected(direction: string)
    ensures AnswerController.AnswerVoteDelta(Field(VoteBody(direction), "direction")).None?
  {
  }

  /** The body the server expects: `{direction: "up" | "down"}`. */
  function AnswerVoteBody(direction: string): (r: Body)
    ensures Field(r, "direction") == Some(if direction == "upVote" then "up" else "down")
    ensures Field(r, "value").None?
  {
    map["direction" := if direction == "upVote" then "up" else "down"]
  }

  /** With that body, an up press counts +1 and a down press -1. */
  lemma AnswerVoteBodyIsAccepted(direction: string)
    requires direction == "upVote" || direction == "downVote"
    ensures AnswerController.AnswerVoteDelta(Field(AnswerVoteBody(direction), "direction"))
         == Some(if direction == "upVote" then 1 else -1)
  {
  }

  // ---------------------------------------------------------------------------
  // The answer box

  /** The answers shown and the text in the answer box. */
  datatype AnswerBox = AnswerBox(answers: seq<AnswerController.AnswerView>, newAnswer: string)

  /** The body `handleSubmitAnswer` posts. */
  function AnswerRequestBody(b: AnswerBox): (r: Body)
    ensures Field(r, "content") == Some(b.newAnswer)
  {
    map["content" := b.newAnswer]
  }

  /** `handleSubmitAnswer`: a blank answer is not posted (`sent` is false). A posted one
      that the server accepts (`response` holds its reply) is appended at the end and the
      box is cleared; a failed post changes nothing. */
  function SubmitAnswer(b: AnswerBox, response: Option<AnswerController.AnswerView>): (r: (bool, AnswerBox))
    ensures r.0 <==> !IsBlank(b.newAnswer)
    ensures !r.0 || response.None? ==> r.1 == b
    ensures r.0 && response.Some? ==> r.1 == AnswerBox(b.answers + [response.value], "")
  {
    if Trim(b.newAnswer) == "" then (false, b)
    else if response.None? then (true, b)
    else (true, AnswerBox(b.answers + [response.value], ""))
  }

  /** Whatever the page posts is non-empty, so `postAnswer` never rejects it with 400. */
  lemma PostedAnswerHasContent(b: AnswerBox)
    requires SubmitAnswer(b, None).0
    ensures AnswerController.HasContent(AnswerRequestBody(b))
  {
  }
}
