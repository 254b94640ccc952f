/** The Poll and Vote documents (server/src/models/Poll.js, server/src/models/Vote.js):
  * their shapes, the defaults and required paths the schemas apply on creation, and the
  * unique (poll, user) index of the Vote collection, modelled as a constraint on the store. */
module Records {
  import opened Base
  import opened Text

  /** Milliseconds since the epoch, as a JavaScript `Date` holds them. */
  type Time = int
  type PollId = nat
  type UserId = nat

  const MinuteMs: int := 60000

  /** The instant `minutes` minutes after `now`. */
  function MinutesAfter(now: Time, minutes: int): Time {
    now + minutes * MinuteMs
  }

  datatype PollOption = PollOption(text: string, votes: nat)

  datatype Poll = Poll(
    id: PollId,
    question: string,
    options: seq<PollOption>,
    creator: UserId,
    contractPollId: nat,
    totalVotes: nat,
    isActive: bool,
    endTime: Time,
    createdAt: Time)

  datatype Vote = Vote(
    id: nat,
    poll: PollId,
    user: UserId,
    optionIndex: nat,
    transactionHash: string,
    votedAt: Time)

  /** Why the store refuses a document: a failed cast or required path, or the unique index. */
  datatype StoreError = ValidationFailed | DuplicateKey

  /** The option sub-schema: `text` is required (the empty string fails it), `votes` defaults to 0. */
  function NewOption(text: string): (r: Result<PollOption, StoreError>)
    ensures r.Ok? <==> text != ""
    ensures r.Ok? ==> r.value.text == text && r.value.votes == 0
  {
    if text == "" then Err(ValidationFailed) else Ok(PollOption(text, 0))
  }

  /** Every option text passes the sub-schema. */
  predicate AllPresent(texts: seq<string>) {
    forall i :: 0 <= i < |texts| ==> texts[i] != ""
  }

  /** `Poll.create`: `question` is trimmed and required, every option text is required,
    * `contractPollId` must cast to a number (an absent id is `NaN` and fails the cast),
    * `totalVotes` defaults to 0, `isActive` to true and `createdAt` to the current time. */
  function NewPoll(id: PollId, question: string, texts: seq<string>, creator: UserId,
                   contractPollId: Option<nat>, endTime: Time, now: Time): (r: Result<Poll, StoreError>)
    ensures r.Ok? <==> contractPollId.Some? && Trim(question) != "" && AllPresent(texts)
    ensures r.Ok? ==> && r.value.id == id && r.value.question == Trim(question)
                      && r.value.creator == creator && r.value.contractPollId == contractPollId.value
                      && r.value.totalVotes == 0 && r.value.isActive
                      && r.value.endTime == endTime && r.value.createdAt == now
                      && |r.value.options| == |texts|
                      && forall i :: 0 <= i < |texts| ==> r.value.options[i] == PollOption(texts[i], 0)
  {
    if contractPollId.None? || Trim(question) == "" || !AllPresent(texts) then Err(ValidationFailed)
    else
      var options := seq(|texts|, i requires 0 <= i < |texts| => NewOption(texts[i]).value);
      Ok(Poll(id, Trim(question), options, creator, contractPollId.value, 0, true, endTime, now))
  }

  /** The sum of the per-option counters of a poll. */
  function SumVotes(options: seq<PollOption>): nat {
    if options == [] then 0 else options[0].votes + SumVotes(options[1..])
  }

  /** A freshly created poll has no votes at all. */
  lemma {:induction false} FreshOptionsSumToZero(options: seq<PollOption>)
    requires forall i :: 0 <= i < |options| ==> options[i].votes == 0
    ensures SumVotes(options) == 0
  {
    if options != [] {
      FreshOptionsSumToZero(options[1..]);
    }
  }

  /** `options[k].votes += 1; totalVotes += 1`. */
  function Bump(p: Poll, k: nat): (r: Poll)
    requires k < |p.options|
    ensures |r.options| == |p.options| && r.options[k].text == p.options[k].text
    ensures r.options[k].votes == p.options[k].votes + 1 && r.totalVotes == p.totalVotes + 1
    ensures forall j :: 0 <= j < |p.options| && j != k ==> r.options[j] == p.options[j]
    ensures SumVotes(r.options) == SumVotes(p.options) + 1
    ensures r == p.(options := r.options, totalVotes := r.totalVotes)
  {
    var options := p.options[k := p.options[k].(votes := p.options[k].votes + 1)];
    SumAfterIncrement(p.options, k);
    p.(options := options, totalVotes := p.totalVotes + 1)
  }

  /** Raising one option's counter by one raises the sum by one. */
  lemma {:induction false} SumAfterIncrement(options: seq<PollOption>, k: nat)
    requires k < |options|
    ensures SumVotes(options[k := options[k].(votes := options[k].votes + 1)]) == SumVotes(options) + 1
  {
    var bumped := options[k := options[k].(votes := options[k].votes + 1)];
    if k > 0 {
      assert bumped[1..] == options[1..][k - 1 := options[k].(votes := options[k].votes + 1)];
      SumAfterIncrement(options[1..], k - 1);
    }
  }

  /** No option holds more votes than the whole poll. */
  lemma {:induction false} OptionAtMostSum(options: seq<PollOption>, k: nat)
    requires k < |options|
    ensures options[k].votes <= SumVotes(options)
  {
    if k > 0 {
      OptionAtMostSum(options[1..], k - 1);
    }
  }

  /** `Poll.findById`: the position of the poll with id `id`, if the store holds one. */
  function FindPoll(polls: seq<Poll>, id: PollId): (r: Option<nat>)
    ensures r.Some? ==> r.value < |polls| && polls[r.value].id == id
    ensures r.None? <==> forall j :: 0 <= j < |polls| ==> polls[j].id != id
  {
    if polls == [] then None
    else if polls[0].id == id then Some(0)
    else match FindPoll(polls[1..], id)
      case None => None
      case Some(j) => Some(j + 1)
  }

  /** `Vote.findOne({poll, user})`: the position of that pair's vote, if one is stored. */
  function FindVote(votes: seq<Vote>, poll: PollId, user: UserId): (r: Option<nat>)
    ensures r.Some? ==> r.value < |votes| && votes[r.value].poll == poll && votes[r.value].user == user
    ensures r.None? <==> forall j :: 0 <= j < |votes| ==> !(votes[j].poll == poll && votes[j].user == user)
  {
    if votes == [] then None
    else if votes[0].poll == poll && votes[0].user == user then Some(0)
    else match FindVote(votes[1..], poll, user)
      case None => None
      case Some(j) => Some(j + 1)
  }

  /** The unique index `{poll: 1, user: 1}`: no two stored votes share a (poll, user) pair. */
  predicate UniqueVotePairs(votes: seq<Vote>) {
    forall i, j :: 0 <= i < j < |votes| ==> !(votes[i].poll == votes[j].poll && votes[i].user == votes[j].user)
  }

  /** `Vote.create`: the required `transactionHash` must be non-empty (`poll`, `user` and
    * `optionIndex` are always present here), and the unique index refuses a second vote for a
    * (poll, user) pair. A refused insert leaves the store as it was. */
  function InsertVote(votes: seq<Vote>, v: Vote): (r: Result<seq<Vote>, StoreError>)
    ensures r.Err? <==> v.transactionHash == "" || FindVote(votes, v.poll, v.user).Some?
    ensures r.Err? && v.transactionHash != "" ==> r.error == DuplicateKey
    ensures r.Ok? ==> r.value == votes + [v]
    ensures r.Ok? && UniqueVotePairs(votes) ==> UniqueVotePairs(r.value)
  {
    if v.transactionHash == "" then Err(ValidationFailed)
    else if FindVote(votes, v.poll, v.user).Some? then Err(DuplicateKey)
    else Ok(votes + [v])
  }

  /** Once a vote for (poll, user) is stored, any later vote for the same pair is refused and the
    * stored vote stays as it was. */
  lemma SecondVoteForPairRefused(votes: seq<Vote>, v: Vote, w: Vote)
    requires InsertVote(votes, v).Ok?
    requires w.poll == v.poll && w.user == v.user
    ensures InsertVote(InsertVote(votes, v).value, w) == Err(if w.transactionHash == "" then ValidationFailed else DuplicateKey)
    ensures InsertVote(votes, v).value[|votes|] == v
  {
    var stored := InsertVote(votes, v).value;
    assert stored[|votes|].poll == w.poll && stored[|votes|].user == w.user;
  }

  /** The number of stored votes for poll `id`. */
  function VotesFor(votes: seq<Vote>, id: PollId): nat {
    if votes == [] then 0 else (if votes[0].poll == id then 1 else 0) + VotesFor(votes[1..], id)
  }

  /** Appending one vote raises the count of its own poll by one and of no other poll. */
  lemma {:induction false} VotesForAppend(votes: seq<Vote>, v: Vote, id: PollId)
    ensures VotesFor(votes + [v], id) == VotesFor(votes, id) + (if v.poll == id then 1 else 0)
  {
    if votes != [] {
      assert (votes + [v])[1..] == votes[1..] + [v];
      VotesForAppend(votes[1..], v, id);
    }
  }

  /** A poll that no stored vote references has no votes. */
  lemma {:induction false} VotesForUnreferenced(votes: seq<Vote>, id: PollId)
    requires forall j :: 0 <= j < |votes| ==> votes[j].poll != id
    ensures VotesFor(votes, id) == 0
  {
    if votes != [] {
      VotesForUnreferenced(votes[1..], id);
    }
  }
}
