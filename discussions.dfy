/** The daily discussion topic and the yes/no votes on it. Each collection is
    a sequence whose index is the record's id, so the latest discussion is the
    last one. */
module Discussions {
  import opened Options
  import opened Text

  datatype Choice = Yes | No

  /** A stored discussion with its running tallies. */
  datatype Discussion = Discussion(topic: string, timestamp: int, yesVotes: nat, noVotes: nat)

  /** One stored vote: who voted, on which discussion id, and how. */
  datatype VoteRecord = VoteRecord(user: int, discussion: nat, choice: Choice)

  /** What `vote` answers, one case per branch of the handler. */
  datatype VoteReply = Usage | InvalidOption | NoActiveDiscussion | AlreadyVoted | Recorded(choice: Choice)

  /** The topic used when the text generator gives no text or fails. */
  const FallbackTopic: string := "Is technology making us smarter or lazier?"

  /** `generate_discussion`: the generated text when there is some, the fixed
      fallback otherwise (no response, empty text or an exception, all of
      which `response` = None or Some("") stands for). */
  function TopicOrFallback(response: Option<string>): (topic: string)
    ensures topic != []
    ensures response.Some? && response.value != [] ==> topic == response.value
    ensures response.None? || response.value == [] ==> topic == FallbackTopic
  {
    if response.Some? && response.value != [] then response.value else FallbackTopic
  }

  /** `context.args[0].lower()` compared with "yes" and "no". */
  function ParseChoice(arg: string): Option<Choice>
  {
    var option := Lower(arg);
    if option == "yes" then Some(Yes) else if option == "no" then Some(No) else None
  }

  /** The accepted spellings of a vote are exactly "yes" and "no" in any mix
      of letter case. */
  lemma ParseChoiceSpellings(arg: string)
    ensures ParseChoice(arg) == Some(Yes) <==> |arg| == 3 && arg[0] in "yY" && arg[1] in "eE" && arg[2] in "sS"
    ensures ParseChoice(arg) == Some(No) <==> |arg| == 2 && arg[0] in "nN" && arg[1] in "oO"
  {
    var option := Lower(arg);
    if |arg| == 3 {
      assert option == "yes" <==> option[0] == 'y' && option[1] == 'e' && option[2] == 's';
    }
    if |arg| == 2 {
      assert option == "no" <==> option[0] == 'n' && option[1] == 'o';
    }
  }

  /** The `$inc` on `yes_votes` or `no_votes`. */
  function Bump(d: Discussion, c: Choice): Discussion
  {
    match c
    case Yes => d.(yesVotes := d.yesVotes + 1)
    case No => d.(noVotes := d.noVotes + 1)
  }

  /** Number of vote records for discussion `d` with choice `c`. */
  function Tally(votes: seq<VoteRecord>, d: nat, c: Choice): nat
    decreases |votes|
  {
    if votes == [] then 0
    else
      var last := votes[|votes| - 1];
      Tally(votes[..|votes| - 1], d, c) + (if last.discussion == d && last.choice == c then 1 else 0)
  }

  /** Number of vote records for discussion `d`. */
  function VotesOn(votes: seq<VoteRecord>, d: nat): nat
    decreases |votes|
  {
    if votes == [] then 0
    else VotesOn(votes[..|votes| - 1], d) + (if votes[|votes| - 1].discussion == d then 1 else 0)
  }

  /** Number of vote records by `user` on discussion `d`. */
  function VotesBy(votes: seq<VoteRecord>, user: int, d: nat): nat
    decreases |votes|
  {
    if votes == [] then 0
    else
      var last := votes[|votes| - 1];
      VotesBy(votes[..|votes| - 1], user, d) + (if last.user == user && last.discussion == d then 1 else 0)
  }

  /** `votes_collection.find_one({"user_id": user, "discussion_id": d})` finds a record. */
  predicate HasVoted(votes: seq<VoteRecord>, user: int, d: nat)
  {
    exists i :: 0 <= i < |votes| && votes[i].user == user && votes[i].discussion == d
  }

  /** No (user, discussion) pair occurs twice among the vote records. */
  predicate OneVotePerVoter(votes: seq<VoteRecord>)
  {
    forall i, j :: 0 <= i < j < |votes| ==> votes[i].user != votes[j].user || votes[i].discussion != votes[j].discussion
  }

  /** The ledger invariant: every vote names a stored discussion, each
      discussion's tallies count its vote records, one vote per voter. */
  predicate Consistent(discussions: seq<Discussion>, votes: seq<VoteRecord>)
  {
    && (forall i :: 0 <= i < |votes| ==> votes[i].discussion < |discussions|)
    && (forall d :: 0 <= d < |discussions| ==>
          discussions[d].yesVotes == Tally(votes, d, Yes) && discussions[d].noVotes == Tally(votes, d, No))
    && OneVotePerVoter(votes)
  }

  /** Every vote on `d` is a yes or a no. */
  lemma {:induction false} TallySplit(votes: seq<VoteRecord>, d: nat)
    ensures Tally(votes, d, Yes) + Tally(votes, d, No) == VotesOn(votes, d)
    decreases |votes|
  {
    if votes != [] {
      TallySplit(votes[..|votes| - 1], d);
    }
  }

  /** In a consistent ledger a discussion's two tallies add up to the number of
      votes recorded for it. */
  lemma TalliesCountVotes(discussions: seq<Discussion>, votes: seq<VoteRecord>, d: nat)
    requires Consistent(discussions, votes) && d < |discussions|
    ensures discussions[d].yesVotes + discussions[d].noVotes == VotesOn(votes, d)
  {
    TallySplit(votes, d);
  }

  /** A discussion nobody has voted on has no tallied votes. */
  lemma {:induction false} TallyUnvoted(votes: seq<VoteRecord>, d: nat, c: Choice)
    requires forall i :: 0 <= i < |votes| ==> votes[i].discussion != d
    ensures Tally(votes, d, c) == 0
    decreases |votes|
  {
    if votes != [] {
      TallyUnvoted(votes[..|votes| - 1], d, c);
    }
  }

  /** A voter with no record on `d` has a count of zero there. */
  lemma {:induction false} VotesByAbsent(votes: seq<VoteRecord>, user: int, d: nat)
    requires !HasVoted(votes, user, d)
    ensures VotesBy(votes, user, d) == 0
    decreases |votes|
  {
    if votes != [] {
      var init := votes[..|votes| - 1];
      assert !HasVoted(init, user, d) by {
        forall i | 0 <= i < |init| ensures !(init[i].user == user && init[i].discussion == d) {
          assert init[i] == votes[i];
        }
      }
      VotesByAbsent(init, user, d);
    }
  }

  /** One vote per voter means at most one record per (user, discussion). */
  lemma {:induction false} AtMostOneVote(votes: seq<VoteRecord>, user: int, d: nat)
    requires OneVotePerVoter(votes)
    ensures VotesBy(votes, user, d) <= 1
    decreases |votes|
  {
    if votes != [] {
      var n := |votes| - 1;
      var init := votes[..n];
      assert OneVotePerVoter(init) by {
        forall i, j | 0 <= i < j < |init|
          ensures init[i].user != init[j].user || init[i].discussion != init[j].discussion
        {
          assert init[i] == votes[i] && init[j] == votes[j];
        }
      }
      AtMostOneVote(init, user, d);
      if votes[n].user == user && votes[n].discussion == d {
        assert !HasVoted(init, user, d) by {
          forall i | 0 <= i < |init| ensures !(init[i].user == user && init[i].discussion == d) {
            assert init[i] == votes[i];
          }
        }
        VotesByAbsent(init, user, d);
      }
    }
  }

  /** Storing a new discussion with zero tallies keeps the ledger consistent. */
  lemma OpenKeepsConsistent(discussions: seq<Discussion>, votes: seq<VoteRecord>, topic: string, now: int)
    requires Consistent(discussions, votes)
    ensures Consistent(discussions + [Discussion(topic, now, 0, 0)], votes)
  {
    var n := |discussions|;
    TallyUnvoted(votes, n, Yes);
    TallyUnvoted(votes, n, No);
  }

  /** Recording a first vote of `user` on the latest discussion, together with
      the matching tally increment, keeps the ledger consistent. */
  lemma VoteKeepsConsistent(discussions: seq<Discussion>, votes: seq<VoteRecord>, user: int, c: Choice)
    requires Consistent(discussions, votes) && |discussions| > 0
    requires !HasVoted(votes, user, |discussions| - 1)
    ensures Consistent(discussions[|discussions| - 1 := Bump(discussions[|discussions| - 1], c)],
                       votes + [VoteRecord(user, |discussions| - 1, c)])
  {
    var latest := |discussions| - 1;
    var votes' := votes + [VoteRecord(user, latest, c)];
    assert votes'[..|votes|] == votes;
  }

  /** The discussion and vote collections, as `send_discussion_prompt` and
      `vote` update them. */
  class Ledger {
    var discussions: seq<Discussion>
    var votes: seq<VoteRecord>

    ghost predicate Valid()
      reads this
    {
      Consistent(discussions, votes)
    }

    constructor ()
      ensures Valid() && discussions == [] && votes == []
    {
      discussions := [];
      votes := [];
    }

    /** `send_discussion_prompt`: stores a new topic with zero tallies, which
        from now on is the one votes go to, and returns the topic it posts. */
    method SendDiscussionPrompt(response: Option<string>, now: int) returns (topic: string)
      requires Valid()
      modifies this
      ensures Valid()
      ensures topic == TopicOrFallback(response)
      ensures discussions == old(discussions) + [Discussion(topic, now, 0, 0)]
      ensures votes == old(votes)
    {
      topic := TopicOrFallback(response);
      OpenKeepsConsistent(discussions, votes, topic, now);
      discussions := discussions + [Discussion(topic, now, 0, 0)];
    }

    /** `vote`: four refusals that change nothing, otherwise one new vote
        record on the latest discussion and one bumped tally. */
    method Vote(user: int, args: seq<string>) returns (reply: VoteReply)
      requires Valid()
      modifies this
      ensures Valid()
      ensures reply == Usage <==> |args| == 0
      ensures reply == InvalidOption <==> |args| > 0 && ParseChoice(args[0]).None?
      ensures reply == NoActiveDiscussion <==>
        |args| > 0 && ParseChoice(args[0]).Some? && |old(discussions)| == 0
      ensures reply == AlreadyVoted <==>
        |args| > 0 && ParseChoice(args[0]).Some? && |old(discussions)| > 0 &&
        HasVoted(old(votes), user, |old(discussions)| - 1)
      ensures !reply.Recorded? ==> discussions == old(discussions) && votes == old(votes)
      ensures reply.Recorded? ==>
        var latest := |old(discussions)| - 1;
        && |args| > 0 && ParseChoice(args[0]) == Some(reply.choice)
        && latest >= 0
        && votes == old(votes) + [VoteRecord(user, latest, reply.choice)]
        && discussions == old(discussions)[latest := Bump(old(discussions)[latest], reply.choice)]
    {
      if |args| == 0 {
        return Usage;
      }
      var option := ParseChoice(args[0]);
      if option.None? {
        return InvalidOption;
      }
      if |discussions| == 0 {
        return NoActiveDiscussion;
      }
      var latest := |discussions| - 1;
      if HasVoted(votes, user, latest) {
        return AlreadyVoted;
      }
      VoteKeepsConsistent(discussions, votes, user, option.value);
      votes := votes + [VoteRecord(user, latest, option.value)];
      discussions := discussions[latest := Bump(discussions[latest], option.value)];
      reply := Recorded(option.value);
    }
  }
}
