/** The read side of server/src/controllers/pollController.js: `getPolls` (status filter and
  * pagination), `getUserPolls`, and `getPoll` with the caller's own vote and the ledger check. */
module PollQueries {
  import opened Base
  import opened Query
  import opened Records
  import opened Helpers
  import opened Replies
  import opened VotingContract
  import opened Chain

  /** The `:id` path parameter: a well-formed object id naming a poll, or anything else. */
  datatype RequestId = WellFormed(id: PollId) | Malformed

  /** The "active" listing: active and ending strictly after now. */
  predicate ListedActive(isActive: bool, endTime: Time, now: Time) {
    isActive && endTime > now
  }

  /** The "ended" listing: inactive, or ending at or before now. */
  predicate ListedEnded(isActive: bool, endTime: Time, now: Time) {
    !isActive || endTime <= now
  }

  /** For every poll and every instant, exactly one of the two listings shows it. */
  lemma ListingsComplementary(isActive: bool, endTime: Time, now: Time)
    ensures ListedActive(isActive, endTime, now) <==> !ListedEnded(isActive, endTime, now)
  {}

  /** The `status` query: "active", "ended", or any other value, which filters nothing. */
  predicate MatchesStatus(status: string, isActive: bool, endTime: Time, now: Time) {
    if status == "active" then ListedActive(isActive, endTime, now)
    else if status == "ended" then ListedEnded(isActive, endTime, now)
    else true
  }

  function StatusFilter(status: string, now: Time): Poll -> bool {
    (p: Poll) => MatchesStatus(status, p.isActive, p.endTime, now)
  }

  function CreatedAt(p: Poll): int { p.createdAt }

  /** The "active" and "ended" listings together count every stored poll exactly once. */
  lemma ActiveAndEndedCoverStore(polls: seq<Poll>, now: Time)
    ensures |Filter(polls, StatusFilter("active", now))| + |Filter(polls, StatusFilter("ended", now))| == |polls|
  {
    FilterSplit(polls, StatusFilter("active", now), StatusFilter("ended", now));
  }

  /** A page of polls with the pagination block. */
  datatype Listing = Listing(polls: seq<PollView>, page: int, limit: int, total: nat, pages: nat)

  function Views(polls: seq<Poll>): (r: seq<PollView>)
    ensures |r| == |polls| && forall j :: 0 <= j < |polls| ==> r[j] == FormatPollResponse(polls[j])
  {
    seq(|polls|, j requires 0 <= j < |polls| => FormatPollResponse(polls[j]))
  }

  function Default(x: Option<int>, d: int): int {
    if x.Some? then x.value else d
  }

  /** The matching polls newest first, cut to the requested page. */
  function PagedPolls(matching: seq<Poll>, page: int, limit: int): (r: Result<Page<Poll>, PageError>)
    ensures r.Err? <==> limit <= 0 || page < 1
    ensures r.Ok? ==> IsPage(r.value.items, SortDesc(matching, CreatedAt), page, limit)
    ensures r.Ok? ==> r.value.total == |matching| && r.value.pages == CeilDiv(|matching|, limit)
    ensures r.Ok? ==> r.value.page == page && r.value.limit == limit && |r.value.items| <= limit
    ensures r.Ok? ==> forall x :: x in r.value.items ==> x in matching
    ensures r.Ok? ==> SortedDesc(r.value.items, CreatedAt)
  {
    SortedPage(matching, CreatedAt, page, limit)
  }

  function Render(pg: Page<Poll>): (r: Listing)
    ensures |r.polls| == |pg.items| && forall j :: 0 <= j < |pg.items| ==> r.polls[j] == FormatPollResponse(pg.items[j])
    ensures r.page == pg.page && r.limit == pg.limit && r.total == pg.total && r.pages == pg.pages
  {
    Listing(Views(pg.items), pg.page, pg.limit, pg.total, pg.pages)
  }

  /** `getPolls`: `status` defaults to "active", `page` to 1 and `limit` to 10. The list is page
    * `page` of the matching polls newest first, each formatted; every listed poll has the
    * requested status, the list is at most `limit` long, `total` counts every matching poll and
    * `pages` is `ceil(total / limit)`. */
  function GetPolls(polls: seq<Poll>, status: Option<string>, page: Option<int>, limit: Option<int>, now: Time): (r: Result<Listing, PageError>)
    ensures var s := if status.Some? then status.value else "active";
      r.Ok? ==> forall j :: 0 <= j < |r.value.polls| ==> MatchesStatus(s, r.value.polls[j].isActive, r.value.polls[j].endTime, now)
    ensures var s := if status.Some? then status.value else "active";
      r.Ok? ==> r.value.total == |Filter(polls, StatusFilter(s, now))| && r.value.total <= |polls|
    ensures r.Ok? ==> r.value.page == Default(page, 1) && r.value.limit == Default(limit, 10)
    ensures r.Ok? ==> r.value.limit > 0 && |r.value.polls| <= r.value.limit && r.value.pages == CeilDiv(r.value.total, r.value.limit)
    ensures r.Ok? ==> forall i, j :: 0 <= i < j < |r.value.polls| ==> r.value.polls[i].createdAt >= r.value.polls[j].createdAt
    ensures r.Err? <==> Default(limit, 10) <= 0 || Default(page, 1) < 1
    ensures var s := if status.Some? then status.value else "active";
      r.Ok? ==> IsPage(r.value.polls, Views(SortDesc(Filter(polls, StatusFilter(s, now)), CreatedAt)),
                       Default(page, 1), Default(limit, 10))
  {
    var s := if status.Some? then status.value else "active";
    var matching := Filter(polls, StatusFilter(s, now));
    match PagedPolls(matching, Default(page, 1), Default(limit, 10))
    case Err(e) => Err(e)
    case Ok(pg) =>
      assert forall j :: 0 <= j < |pg.items| ==> pg.items[j] in pg.items;
      var sorted := SortDesc(matching, CreatedAt);
      PageOfMapped(pg.items, sorted, Default(page, 1), Default(limit, 10), FormatPollResponse,
                   Render(pg).polls, Views(sorted));
      Ok(Render(pg))
  }

  function CreatedBy(user: UserId): Poll -> bool {
    (p: Poll) => p.creator == user
  }

  /** `getUserPolls`: page `page` of the caller's own polls, newest first, formatted and paged
    * like `getPolls`; `total` counts all of them. */
  function GetUserPolls(polls: seq<Poll>, user: UserId, page: Option<int>, limit: Option<int>): (r: Result<Listing, PageError>)
    ensures r.Ok? ==> forall j :: 0 <= j < |r.value.polls| ==> r.value.polls[j].creator == user
    ensures r.Ok? ==> r.value.total == |Filter(polls, CreatedBy(user))|
    ensures r.Ok? ==> r.value.limit > 0 && |r.value.polls| <= r.value.limit && r.value.pages == CeilDiv(r.value.total, r.value.limit)
    ensures r.Ok? ==> forall i, j :: 0 <= i < j < |r.value.polls| ==> r.value.polls[i].createdAt >= r.value.polls[j].createdAt
    ensures r.Err? <==> Default(limit, 10) <= 0 || Default(page, 1) < 1
    ensures r.Ok? ==> IsPage(r.value.polls, Views(SortDesc(Filter(polls, CreatedBy(user)), CreatedAt)),
                             Default(page, 1), Default(limit, 10))
  {
    var mine := Filter(polls, CreatedBy(user));
    match PagedPolls(mine, Default(page, 1), Default(limit, 10))
    case Err(e) => Err(e)
    case Ok(pg) =>
      var sorted := SortDesc(mine, CreatedAt);
      PageOfMapped(pg.items, sorted, Default(page, 1), Default(limit, 10), FormatPollResponse,
                   Render(pg).polls, Views(sorted));
      assert forall j :: 0 <= j < |pg.items| ==> pg.items[j].creator == user by {
        forall j | 0 <= j < |pg.items| ensures pg.items[j].creator == user {
          assert pg.items[j] in Filter(polls, CreatedBy(user));
        }
      }
      Ok(Render(pg))
  }

  /** One poll as `getPoll` returns it. */
  datatype PollDetail = PollDetail(poll: PollView, optionsWithPercentages: seq<OptionView>,
                                   userVote: Option<nat>, blockchainVerified: bool)

  /** `getPoll`: refuses a malformed id (400) and an unknown poll (404); otherwise returns the
    * poll, its percentages, the option the caller voted for (none for an anonymous caller or one
    * who has not voted), and whether the ledger could be read for its `contractPollId`. Nothing
    * is changed. */
  function GetPoll(polls: seq<Poll>, votes: seq<Vote>, ledger: Ledger, id: RequestId,
                   caller: Option<UserId>, reachable: bool): (r: Reply<PollDetail>)
    ensures id.Malformed? ==> r == Refused(InvalidPollId)
    ensures id.WellFormed? && FindPoll(polls, id.id).None? ==> r == Refused(PollNotFound)
    ensures r.Done? ==> id.WellFormed? && FindPoll(polls, id.id).Some? && r.code == 200
    ensures r.Done? ==> var p := polls[FindPoll(polls, id.id).value];
      && r.value.poll == FormatPollResponse(p)
      && r.value.optionsWithPercentages == CalculateVotePercentages(p.options, p.totalVotes)
      && |r.value.optionsWithPercentages| == |p.options|
      && (r.value.blockchainVerified <==> reachable && p.contractPollId < |ledger.polls|)
    ensures r.Done? ==> (r.value.userVote.Some? <==> caller.Some? && FindVote(votes, id.id, caller.value).Some?)
    ensures r.Done? && r.value.userVote.Some? ==>
      exists j :: 0 <= j < |votes| && votes[j].poll == id.id && votes[j].user == caller.value
                  && votes[j].optionIndex == r.value.userVote.value
  {
    if id.Malformed? then Refused(InvalidPollId)
    else match FindPoll(polls, id.id)
      case None => Refused(PollNotFound)
      case Some(i) =>
        var p := polls[i];
        var userVote :=
          if caller.None? then None
          else match FindVote(votes, id.id, caller.value)
            case None => None
            case Some(j) => Some(votes[j].optionIndex);
        var verified := GetPollFromChain(ledger, p.contractPollId, reachable).Ok?;
        Done(200, PollDetail(FormatPollResponse(p), CalculateVotePercentages(p.options, p.totalVotes), userVote, verified))
  }
}
