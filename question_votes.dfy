/** The question vote ledger: the two lists of voter ids a question keeps (`upVote`,
    `downVote`) and the toggle/flip rule `voteQuestion` applies to them, as a function
    on values. `QuestionModel.QuestionDoc.Vote` performs the same step in place and is
    proved equal to `CastVote`. */
module QuestionVotes {
  import opened Wrappers
  import opened Seqs

  type UserId = string

  /** The two voter lists of one question, in stored order. */
  datatype Ledger = Ledger(upVote: seq<UserId>, downVote: seq<UserId>)

  /** The ledger of a new question: both lists default to empty. */
  const EmptyLedger := Ledger([], [])

  /** The design invariant: every user occurs at most once across the two lists
      (so never in both). */
  ghost predicate Exclusive(l: Ledger) {
    forall u :: Count(l.upVote, u) + Count(l.downVote, u) <= 1
  }

  /** One vote by `u` with the request's `value` field. "upVote" clears a down vote by
      `u`, then adds an up vote if `u` had none and removes it if `u` had one;
      "downVote" is the mirror image; any other value, or none, changes nothing. */
  function CastVote(l: Ledger, u: UserId, value: Option<string>): (r: Ledger)
    ensures value == Some("upVote") ==> u !in r.downVote && (u in r.upVote <==> u !in l.upVote)
    ensures value == Some("downVote") ==> u !in r.upVote && (u in r.downVote <==> u !in l.downVote)
    ensures value != Some("upVote") && value != Some("downVote") ==> r == l
  {
    if value == Some("upVote") then
      Ledger(if u in l.upVote then Without(l.upVote, u) else l.upVote + [u],
             Without(l.downVote, u))
    else if value == Some("downVote") then
      Ledger(Without(l.upVote, u),
             if u in l.downVote then Without(l.downVote, u) else l.downVote + [u])
    else l
  }

  /** A vote by `u` touches no other user's entries: erasing `u` from either list, before
      or after the vote, gives the same list, so the other ids stay in their order. */
  lemma VoteLeavesOthersAlone(l: Ledger, u: UserId, value: Option<string>)
    ensures Without(CastVote(l, u, value).upVote, u) == Without(l.upVote, u)
    ensures Without(CastVote(l, u, value).downVote, u) == Without(l.downVote, u)
  {
    WithoutIdempotent(l.upVote, u);
    WithoutIdempotent(l.downVote, u);
    WithoutPush(l.upVote, u, u);
    WithoutPush(l.downVote, u, u);
  }

  /** A vote never changes how often any other user occurs in either list. */
  lemma VoteKeepsOtherCounts(l: Ledger, u: UserId, value: Option<string>, w: UserId)
    requires w != u
    ensures Count(CastVote(l, u, value).upVote, w) == Count(l.upVote, w)
    ensures Count(CastVote(l, u, value).downVote, w) == Count(l.downVote, w)
  {
    CountWithout(l.upVote, u, w);
    CountWithout(l.downVote, u, w);
    CountPush(l.upVote, u, w);
    CountPush(l.downVote, u, w);
  }

  /** If `u` occurs at most once before a vote, `u` occurs at most once after it, and
      never in both lists. */
  lemma VoteKeepsCallerAtMostOnce(l: Ledger, u: UserId, value: Option<string>)
    requires Count(l.upVote, u) + Count(l.downVote, u) <= 1
    ensures Count(CastVote(l, u, value).upVote, u) + Count(CastVote(l, u, value).downVote, u) <= 1
    ensures !(u in CastVote(l, u, value).upVote && u in CastVote(l, u, value).downVote)
  {
    CountWithout(l.upVote, u, u);
    CountWithout(l.downVote, u, u);
    CountPush(l.upVote, u, u);
    CountPush(l.downVote, u, u);
  }

  /** Every vote preserves the one-vote-per-user invariant of the whole ledger. */
  lemma VotePreservesExclusive(l: Ledger, u: UserId, value: Option<string>)
    requires Exclusive(l)
    ensures Exclusive(CastVote(l, u, value))
  {
    var r := CastVote(l, u, value);
    forall w
      ensures Count(r.upVote, w) + Count(r.downVote, w) <= 1
    {
      if w == u {
        VoteKeepsCallerAtMostOnce(l, u, value);
      } else {
        VoteKeepsOtherCounts(l, u, value, w);
      }
    }
  }

  /** From a state where `u` has not voted, casting the same vote twice restores both
      lists exactly: the first call pushes `u`, the second filters it out again. */
  lemma RepeatVoteRestores(l: Ledger, u: UserId, value: Option<string>)
    requires u !in l.upVote && u !in l.downVote
    ensures CastVote(CastVote(l, u, value), u, value) == l
  {
    WithoutAbsent(l.upVote, u);
    WithoutAbsent(l.downVote, u);
    WithoutPush(l.upVote, u, u);
    WithoutPush(l.downVote, u, u);
  }

  /** An up vote followed by a down vote leaves exactly one vote by `u`, a down vote at
      the end of `downVote`, whatever `u` had before; and the mirror image. */
  lemma FlipLeavesOneVote(l: Ledger, u: UserId)
    ensures CastVote(CastVote(l, u, Some("upVote")), u, Some("downVote"))
         == Ledger(Without(l.upVote, u), Without(l.downVote, u) + [u])
    ensures CastVote(CastVote(l, u, Some("downVote")), u, Some("upVote"))
         == Ledger(Without(l.upVote, u) + [u], Without(l.downVote, u))
  {
    WithoutIdempotent(l.upVote, u);
    WithoutIdempotent(l.downVote, u);
    WithoutPush(l.upVote, u, u);
    WithoutPush(l.downVote, u, u);
  }

  /** Net score of a ledger: up votes minus down votes. */
  function Score(l: Ledger): int {
    |l.upVote| - |l.downVote|
  }

  /** How one vote moves the score when the caller occurs at most once: a fresh vote
      moves it by one, a repeated vote takes that back, a flip moves it by two. */
  lemma VoteScoreChange(l: Ledger, u: UserId, value: Option<string>)
    requires Count(l.upVote, u) + Count(l.downVote, u) <= 1
    ensures value == Some("upVote") ==>
      Score(CastVote(l, u, value)) - Score(l)
        == if u in l.upVote then -1 else if u in l.downVote then 2 else 1
    ensures value == Some("downVote") ==>
      Score(CastVote(l, u, value)) - Score(l)
        == if u in l.downVote then 1 else if u in l.upVote then -2 else -1
    ensures value != Some("upVote") && value != Some("downVote") ==>
      Score(CastVote(l, u, value)) == Score(l)
  {
  }
}
