/** server/src/controllers/userController.js: the caller's counts (`getUserStats`) and the
  * caller's votes, newest first and paged (`getUserVotes`). */
module UserQueries {
  import opened Base
  import opened Query
  import opened Records
  import opened PollQueries

  datatype UserStats = UserStats(pollsCreated: nat, votesCast: nat, totalPolls: nat)

  function CastBy(user: UserId): Vote -> bool {
    (v: Vote) => v.user == user
  }

  /** `getUserStats`: the polls the user created, the votes the user cast, and all polls. A
    * user cannot have created more polls than there are. */
  function GetUserStats(polls: seq<Poll>, votes: seq<Vote>, user: UserId): (s: UserStats)
    ensures s.totalPolls == |polls| && s.pollsCreated <= s.totalPolls && s.votesCast <= |votes|
    ensures s.pollsCreated == |Filter(polls, CreatedBy(user))|
    ensures s.votesCast == |Filter(votes, CastBy(user))|
  {
    UserStats(|Filter(polls, CreatedBy(user))|, |Filter(votes, CastBy(user))|, |polls|)
  }

  /** The populated poll of a vote entry: id, question and creator, or null when the poll the
    * vote references is not in the store. */
  datatype PollSummary = PollSummary(id: PollId, question: string, creator: UserId)

  datatype VoteEntry = VoteEntry(id: nat, poll: Option<PollSummary>, optionIndex: nat,
                                 transactionHash: string, votedAt: Time)

  datatype VoteListing = VoteListing(votes: seq<VoteEntry>, page: int, limit: int, total: nat, pages: nat)

  function Summary(polls: seq<Poll>, id: PollId): (r: Option<PollSummary>)
    ensures r.None? <==> FindPoll(polls, id).None?
    ensures r.Some? ==> var p := polls[FindPoll(polls, id).value];
      r.value == PollSummary(p.id, p.question, p.creator) && r.value.id == id
  {
    match FindPoll(polls, id)
    case None => None
    case Some(i) => Some(PollSummary(polls[i].id, polls[i].question, polls[i].creator))
  }

  /** One entry of the list: the vote's own fields and the summary of its poll. */
  function FormatVote(polls: seq<Poll>, v: Vote): (e: VoteEntry)
    ensures e.id == v.id && e.optionIndex == v.optionIndex && e.transactionHash == v.transactionHash
    ensures e.votedAt == v.votedAt && e.poll == Summary(polls, v.poll)
  {
    VoteEntry(v.id, Summary(polls, v.poll), v.optionIndex, v.transactionHash, v.votedAt)
  }

  /** The entries for a list of votes, in the same order. */
  function Entries(polls: seq<Poll>, vs: seq<Vote>): (r: seq<VoteEntry>)
    ensures |r| == |vs| && forall j :: 0 <= j < |vs| ==> r[j] == FormatVote(polls, vs[j])
  {
    seq(|vs|, j requires 0 <= j < |vs| => FormatVote(polls, vs[j]))
  }

  function VotedAt(v: Vote): int { v.votedAt }

  /** The user's votes newest first, cut to the requested page. */
  function UserVotePage(votes: seq<Vote>, user: UserId, page: int, limit: int): (r: Result<Page<Vote>, PageError>)
    ensures r.Err? <==> limit <= 0 || page < 1
    ensures r.Ok? ==> IsPage(r.value.items, SortDesc(Filter(votes, CastBy(user)), VotedAt), page, limit)
    ensures r.Ok? ==> r.value.total == |Filter(votes, CastBy(user))| && r.value.pages == CeilDiv(r.value.total, limit)
    ensures r.Ok? ==> r.value.page == page && r.value.limit == limit && |r.value.items| <= limit
    ensures r.Ok? ==> forall x :: x in r.value.items ==> x in votes && x.user == user
    ensures r.Ok? ==> SortedDesc(r.value.items, VotedAt)
  {
    SortedPage(Filter(votes, CastBy(user)), VotedAt, page, limit)
  }

  /** `getUserVotes`: page `page` of the caller's votes, newest first, at most `limit`; `total`
    * counts all of the caller's votes and `pages` is `ceil(total / limit)`. Each entry carries
    * its poll's summary, or none when that poll is gone. */
  function GetUserVotes(polls: seq<Poll>, votes: seq<Vote>, user: UserId, page: Option<int>, limit: Option<int>)
    : (r: Result<VoteListing, PageError>)
    ensures r.Err? <==> Default(limit, 10) <= 0 || Default(page, 1) < 1
    ensures r.Ok? ==> r.value.total == |Filter(votes, CastBy(user))|
    ensures r.Ok? ==> r.value.limit > 0 && |r.value.votes| <= r.value.limit && r.value.pages == CeilDiv(r.value.total, r.value.limit)
    ensures r.Ok? ==> var pg := UserVotePage(votes, user, Default(page, 1), Default(limit, 10));
      && pg.Ok? && |r.value.votes| == |pg.value.items|
      && forall j :: 0 <= j < |r.value.votes| ==> r.value.votes[j] == FormatVote(polls, pg.value.items[j])
    ensures r.Ok? ==> forall i, j :: 0 <= i < j < |r.value.votes| ==> r.value.votes[i].votedAt >= r.value.votes[j].votedAt
    ensures r.Ok? ==> IsPage(r.value.votes, Entries(polls, SortDesc(Filter(votes, CastBy(user)), VotedAt)),
                             Default(page, 1), Default(limit, 10))
  {
    match UserVotePage(votes, user, Default(page, 1), Default(limit, 10))
    case Err(e) => Err(e)
    case Ok(pg) =>
      var entries := Entries(polls, pg.items);
      var sorted := SortDesc(Filter(votes, CastBy(user)), VotedAt);
      PageOfMapped(pg.items, sorted, Default(page, 1), Default(limit, 10), v => FormatVote(polls, v),
                   entries, Entries(polls, sorted));
      Ok(VoteListing(entries, pg.page, pg.limit, pg.total, pg.pages))
  }

  /** The counts agree with the lists: `pollsCreated` is the `total` of `getUserPolls` and
    * `votesCast` the `total` of `getUserVotes`, on every page. */
  lemma StatsAgreeWithListings(polls: seq<Poll>, votes: seq<Vote>, user: UserId, page: Option<int>, limit: Option<int>)
    requires Default(limit, 10) > 0 && Default(page, 1) >= 1
    ensures GetUserPolls(polls, user, page, limit).Ok?
      && GetUserPolls(polls, user, page, limit).value.total == GetUserStats(polls, votes, user).pollsCreated
    ensures GetUserVotes(polls, votes, user, page, limit).Ok?
      && GetUserVotes(polls, votes, user, page, limit).value.total == GetUserStats(polls, votes, user).votesCast
  {}

  /** With at most one vote per (poll, user), the user's votes name distinct polls, so the user
    * has voted at most once on each poll. */
  lemma {:induction false} OneVotePerPollForUser(votes: seq<Vote>, user: UserId, id: PollId)
    requires UniqueVotePairs(votes)
    ensures |Filter(votes, (v: Vote) => v.user == user && v.poll == id)| <= 1
  {
    var keep := (v: Vote) => v.user == user && v.poll == id;
    if votes != [] {
      var rest := votes[1..];
      assert UniqueVotePairs(rest);
      OneVotePerPollForUser(rest, user, id);
      if keep(votes[0]) {
        forall x | x in rest ensures !keep(x) {
          var j :| 0 <= j < |rest| && rest[j] == x;
          assert votes[j + 1] == x;
        }
        FilterNone(rest, keep);
      }
      assert votes == [votes[0]] + rest;
    }
  }
}
