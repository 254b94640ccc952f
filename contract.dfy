/** The voting contract on the ledger, as the server's adapter sees it and as its test suite
  * (contracts/test/GaslessVoting.test.js) pins it down: polls numbered from 0 in creation order,
  * per-option tallies, and a `hasVoted` set keyed by the SENDER of each vote transaction. */
module VotingContract {
  import opened Base

  /** A ledger account. */
  type Address = string

  datatype LedgerPoll = LedgerPoll(
    question: string,
    options: seq<string>,
    creator: Address,
    endTime: int,
    isActive: bool,
    tallies: seq<nat>,
    totalVotes: nat,
    voters: set<Address>)

  /** The contract's storage: poll `i` is `polls[i]`, and `pollCount` is `|polls|`. */
  datatype Ledger = Ledger(polls: seq<LedgerPoll>)

  /** The reasons the contract reverts a transaction. */
  datatype Revert = EmptyQuestion | TooFewOptions | ZeroDuration | UnknownPoll | OptionOutOfRange | SenderAlreadyVoted

  /** The revert strings; the contract's tests fix all but those of `UnknownPoll` and `OptionOutOfRange`. */
  function RevertReason(r: Revert): string {
    match r
    case EmptyQuestion => "Question required"
    case TooFewOptions => "At least two options required"
    case ZeroDuration => "Duration must be positive"
    case UnknownPoll => "Poll does not exist"
    case OptionOutOfRange => "Invalid option"
    case SenderAlreadyVoted => "Already voted"
  }

  /** `hasVoted(pollId, account)`: false for a poll that does not exist. */
  predicate HasVoted(l: Ledger, pollId: nat, account: Address) {
    pollId < |l.polls| && account in l.polls[pollId].voters
  }

  function Zeros(n: nat): (r: seq<nat>)
    ensures |r| == n && forall i :: 0 <= i < n ==> r[i] == 0
  {
    seq(n, _ => 0)
  }

  /** `createPoll(question, options, durationInMinutes)` sent by `sender`: refused for an empty
    * question, fewer than two options, or a zero duration, in that order; otherwise poll number
    * `pollCount` is appended, active, created by `sender`, with zero tallies and no voters. */
  function CreatePoll(l: Ledger, sender: Address, question: string, options: seq<string>,
                      duration: int, endTime: int): (r: Result<(Ledger, nat), Revert>)
    ensures question == "" ==> r == Err(EmptyQuestion)
    ensures question != "" && |options| < 2 ==> r == Err(TooFewOptions)
    ensures question != "" && |options| >= 2 && duration <= 0 ==> r == Err(ZeroDuration)
    ensures r.Ok? <==> question != "" && |options| >= 2 && duration > 0
    ensures r.Ok? ==> var (l', id) := r.value;
      && id == |l.polls| && |l'.polls| == id + 1 && l'.polls[..id] == l.polls
      && l'.polls[id].question == question && l'.polls[id].options == options
      && l'.polls[id].creator == sender && l'.polls[id].endTime == endTime && l'.polls[id].isActive
      && |l'.polls[id].tallies| == |options| && l'.polls[id].totalVotes == 0
      && (forall k :: 0 <= k < |options| ==> l'.polls[id].tallies[k] == 0)
      && l'.polls[id].voters == {}
  {
    if question == "" then Err(EmptyQuestion)
    else if |options| < 2 then Err(TooFewOptions)
    else if duration <= 0 then Err(ZeroDuration)
    else
      var newPoll := LedgerPoll(question, options, sender, endTime, true, Zeros(|options|), 0, {});
      assert (l.polls + [newPoll])[..|l.polls|] == l.polls;
      Ok((Ledger(l.polls + [newPoll]), |l.polls|))
  }

  /** `vote(pollId, option)` sent by `sender`: refused for an unknown poll, an option out of range,
    * or a sender already recorded for that poll; otherwise that option's tally and the poll's
    * total rise by one and the sender is recorded. Nothing else changes. */
  function CastVote(l: Ledger, sender: Address, pollId: nat, option: nat): (r: Result<Ledger, Revert>)
    ensures r.Err? <==> pollId >= |l.polls| || option >= |l.polls[pollId].tallies| || HasVoted(l, pollId, sender)
    ensures r.Err? && pollId < |l.polls| && option < |l.polls[pollId].tallies| ==> r.error == SenderAlreadyVoted
    ensures r.Ok? ==> |r.value.polls| == |l.polls| && pollId < |l.polls|
    ensures r.Ok? ==>
      var p := l.polls[pollId];
      var p' := r.value.polls[pollId];
      && (forall j :: 0 <= j < |l.polls| && j != pollId ==> r.value.polls[j] == l.polls[j])
      && |p'.tallies| == |p.tallies| && p'.tallies[option] == p.tallies[option] + 1
      && (forall k :: 0 <= k < |p.tallies| && k != option ==> p'.tallies[k] == p.tallies[k])
      && p'.totalVotes == p.totalVotes + 1
      && p'.voters == p.voters + {sender}
      && p' == p.(tallies := p'.tallies, totalVotes := p'.totalVotes, voters := p'.voters)
  {
    if pollId >= |l.polls| then Err(UnknownPoll)
    else
      var p := l.polls[pollId];
      if option >= |p.tallies| then Err(OptionOutOfRange)
      else if sender in p.voters then Err(SenderAlreadyVoted)
      else
        var p' := p.(tallies := p.tallies[option := p.tallies[option] + 1],
                     totalVotes := p.totalVotes + 1,
                     voters := p.voters + {sender});
        Ok(Ledger(l.polls[pollId := p']))
  }

  /** The ledger only grows: polls are appended and never removed, and a recorded voter stays
    * recorded. */
  predicate Grows(l: Ledger, l': Ledger) {
    && |l.polls| <= |l'.polls|
    && forall j :: 0 <= j < |l.polls| ==> l.polls[j].voters <= l'.polls[j].voters
  }

  /** Every transaction the contract accepts lets the ledger grow, so a `hasVoted` fact, once
    * true, stays true. */
  lemma TransactionsGrow(l: Ledger, sender: Address, question: string, options: seq<string>,
                         duration: int, endTime: int, pollId: nat, option: nat)
    ensures CreatePoll(l, sender, question, options, duration, endTime).Ok? ==>
      Grows(l, CreatePoll(l, sender, question, options, duration, endTime).value.0)
    ensures CastVote(l, sender, pollId, option).Ok? ==> Grows(l, CastVote(l, sender, pollId, option).value)
  {
    var c := CreatePoll(l, sender, question, options, duration, endTime);
    if c.Ok? {
      assert forall j :: 0 <= j < |l.polls| ==> c.value.0.polls[j] == c.value.0.polls[..|l.polls|][j];
    }
  }

  /** `Grows` chains. */
  lemma GrowsTransitive(a: Ledger, b: Ledger, c: Ledger)
    requires Grows(a, b) && Grows(b, c)
    ensures Grows(a, c)
  {}

  /** The contract test's voting case: after `createPoll("Test Poll", ["Yes", "No"], 60)` on a
    * fresh contract, `user1`'s vote for option 0 counts one vote and marks `user1` as voted,
    * and `user1`'s second vote (for option 1) is reverted with "Already voted". */
  lemma VotingScenario(owner: Address, user1: Address, endTime: int)
    ensures var created := CreatePoll(Ledger([]), owner, "Test Poll", ["Yes", "No"], 60, endTime);
      && created.Ok? && created.value.1 == 0
      && var voted := CastVote(created.value.0, user1, 0, 0);
      && voted.Ok? && voted.value.polls[0].tallies[0] == 1 && HasVoted(voted.value, 0, user1)
      && CastVote(voted.value, user1, 0, 1) == Err(SenderAlreadyVoted)
  {
    var created := CreatePoll(Ledger([]), owner, "Test Poll", ["Yes", "No"], 60, endTime);
    var voted := CastVote(created.value.0, user1, 0, 0);
    assert HasVoted(voted.value, 0, user1);
  }

  /** The contract test's creation cases: the reverts for an empty question, a single option and a
    * zero duration, and poll 0 reading back what `user1` created. */
  lemma CreationScenario(user1: Address, endTime: int)
    ensures CreatePoll(Ledger([]), user1, "", ["A", "B"], 60, endTime) == Err(EmptyQuestion)
    ensures CreatePoll(Ledger([]), user1, "Test", ["A"], 60, endTime) == Err(TooFewOptions)
    ensures CreatePoll(Ledger([]), user1, "Test", ["A", "B"], 0, endTime) == Err(ZeroDuration)
    ensures var created := CreatePoll(Ledger([]), user1, "Test Poll?", ["Option 1", "Option 2"], 60, endTime);
      && created.Ok? && created.value.1 == 0
      && created.value.0.polls[0].question == "Test Poll?"
      && created.value.0.polls[0].options == ["Option 1", "Option 2"]
      && created.value.0.polls[0].creator == user1 && created.value.0.polls[0].isActive
  {}
}
