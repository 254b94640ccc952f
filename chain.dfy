/** The server's ledger adapter, server/src/services/blockchainService.js: a contract handle built
  * once and cached, poll creation with a scan of the receipt's logs for the new poll's id, a vote
  * guarded by `hasVoted`, and the read of one poll. Every transaction is signed by the one server
  * wallet of the handle. */
module Chain {
  import opened Base
  import opened VotingContract

  /** The environment the handle is built from: RPC URL, contract address, and the address of
    * the wallet that the private key opens. */
  datatype Config = Config(rpcUrl: string, contractAddress: string, signer: Address)

  /** A contract handle: which contract, over which provider, signing as which wallet. */
  datatype ContractHandle = ContractHandle(address: string, rpcUrl: string, signer: Address)

  /** The module-level `contractInstance`, `null` until the first `getContract`. */
  class ContractCache {
    var instance: Option<ContractHandle>

    constructor ()
      ensures instance == None
    {
      instance := None;
    }

    /** `getContract`: builds the handle from the configuration on the first call only; every
      * later call returns the cached handle, whatever the configuration is by then. */
    method GetContract(config: Config) returns (c: ContractHandle)
      modifies this
      ensures old(instance).Some? ==> c == old(instance).value && instance == old(instance)
      ensures old(instance).None? ==> c == ContractHandle(config.contractAddress, config.rpcUrl, config.signer)
      ensures instance == Some(c)
    {
      if instance.Some? {
        return instance.value;
      }
      c := ContractHandle(config.contractAddress, config.rpcUrl, config.signer);
      instance := Some(c);
    }
  }

  /** Two calls, whatever their configurations, yield the same handle and so the same signer. */
  method HandleIsStable(cache: ContractCache, first: Config, second: Config) returns (a: ContractHandle, b: ContractHandle)
    modifies cache
    ensures a == b
    ensures old(cache.instance).None? ==> a.signer == first.signer
  {
    a := cache.GetContract(first);
    b := cache.GetContract(second);
  }

  /** One log of a transaction receipt: the event signature its first topic identifies, and its
    * `pollId` argument. */
  datatype Log = Log(signature: string, pollId: nat)

  /** An event declaration of an ABI: its name and its full signature. */
  datatype EventFragment = EventFragment(name: string, signature: string)

  datatype Event = Event(name: string, pollId: nat)

  /** The events declared in the adapter's ABI (blockchainService.js). */
  const ServerAbi: seq<EventFragment> := [
    EventFragment("PollCreated", "PollCreated(uint256,string,address,uint256)"),
    EventFragment("Voted", "Voted(uint256,address,uint256)"),
    EventFragment("PollEnded", "PollEnded(uint256)")
  ]

  /** `interface.parseLog(log)`: the first declared event whose signature is the log's; a log no
    * declaration matches does not parse (ethers returns null or throws, and the scan skips it). */
  function ParseLog(abi: seq<EventFragment>, log: Log): (r: Option<Event>)
    ensures r.None? <==> forall i :: 0 <= i < |abi| ==> abi[i].signature != log.signature
    ensures r.Some? ==> r.value.pollId == log.pollId
    ensures r.Some? ==> exists i :: 0 <= i < |abi| && abi[i].signature == log.signature && abi[i].name == r.value.name
  {
    if abi == [] then None
    else if abi[0].signature == log.signature then Some(Event(abi[0].name, log.pollId))
    else ParseLog(abi[1..], log)
  }

  predicate IsPollCreated(abi: seq<EventFragment>, log: Log) {
    var e := ParseLog(abi, log);
    e.Some? && e.value.name == "PollCreated"
  }

  /** The position of the first log that parses as `PollCreated`. */
  function FirstPollCreated(abi: seq<EventFragment>, logs: seq<Log>): (r: Option<nat>)
    ensures r.Some? ==> r.value < |logs| && IsPollCreated(abi, logs[r.value])
                        && forall j :: 0 <= j < r.value ==> !IsPollCreated(abi, logs[j])
    ensures r.None? <==> forall j :: 0 <= j < |logs| ==> !IsPollCreated(abi, logs[j])
  {
    if logs == [] then None
    else if IsPollCreated(abi, logs[0]) then Some(0)
    else
      var rest := logs[1..];
      assert forall m :: 0 <= m < |rest| ==> rest[m] == logs[m + 1];
      match FirstPollCreated(abi, rest)
      case None => None
      case Some(j) => Some(j + 1)
  }

  /** The poll id the scan reports: that of the first `PollCreated` log, `undefined` if none. */
  function PollIdOf(abi: seq<EventFragment>, logs: seq<Log>): Option<nat> {
    match FirstPollCreated(abi, logs)
    case None => None
    case Some(k) => Some(logs[k].pollId)
  }

  /** The scan of `createPollOnChain` as the source runs it: a loop over the receipt's logs that
    * takes the id of the first `PollCreated` and breaks. */
  method ExtractPollId(abi: seq<EventFragment>, logs: seq<Log>) returns (pollId: Option<nat>)
    ensures pollId == PollIdOf(abi, logs)
  {
    pollId := None;
    var i := 0;
    while i < |logs|
      invariant 0 <= i <= |logs|
      invariant forall j :: 0 <= j < i ==> !IsPollCreated(abi, logs[j])
    {
      var parsed := ParseLog(abi, logs[i]);
      if parsed.Some? && parsed.value.name == "PollCreated" {
        pollId := Some(parsed.value.pollId);
        assert FirstPollCreated(abi, logs) == Some(i);
        return;
      }
      i := i + 1;
    }
  }

  /** What the transport does with a transaction: whether the node answers at all, whether
    * `tx.wait()` hands back the receipt once the transaction is mined (it can also throw after
    * the transaction went out: a timeout, a dropped connection, a replaced transaction), the
    * block time the contract would see, the hash of the mined transaction and the logs of its
    * receipt. */
  datatype ChainEnv = ChainEnv(reachable: bool, confirmed: bool, blockTime: int, txHash: string, logs: seq<Log>)

  const NetworkError: string := "could not reach the ledger"
  const ConfirmationLost: string := "no receipt for the sent transaction"
  const AlreadyVotedMessage: string := "Already voted on this poll"

  /** The ledger after a call, and the adapter's `{success, …}` answer (`error` on failure). */
  datatype Sent<+T> = Sent(ledger: Ledger, result: Result<T, string>)

  datatype CreateReceipt = CreateReceipt(pollId: Option<nat>, transactionHash: string)

  /** `createPollOnChain`: sends `createPoll` from the signer. The ledger holds the new poll
    * exactly when the node was reached and the contract accepted it, and is untouched otherwise.
    * The answer is a success only when the receipt also came back: a failure after the
    * transaction was mined is an error although the poll is on the ledger. On success the poll
    * id is whatever the log scan found (possibly none). The contract computes the poll's end
    * time from its own block time. */
  function CreatePollOnChain(l: Ledger, signer: Address, abi: seq<EventFragment>, question: string,
                             options: seq<string>, duration: int, env: ChainEnv): (s: Sent<CreateReceipt>)
    ensures Grows(l, s.ledger)
    ensures !env.reachable ==> s.result == Err(NetworkError)
    ensures var mined := env.reachable && CreatePoll(l, signer, question, options, duration, env.blockTime + 60 * duration).Ok?;
      && (mined ==> s.ledger == CreatePoll(l, signer, question, options, duration, env.blockTime + 60 * duration).value.0)
      && (!mined ==> s.ledger == l && s.result.Err?)
      && (s.result.Ok? <==> mined && env.confirmed)
    ensures s.result.Ok? ==> s.result.value == CreateReceipt(PollIdOf(abi, env.logs), env.txHash)
  {
    if !env.reachable then Sent(l, Err(NetworkError))
    else match CreatePoll(l, signer, question, options, duration, env.blockTime + 60 * duration)
      case Err(rv) => Sent(l, Err(RevertReason(rv)))
      case Ok((l', _)) =>
        TransactionsGrow(l, signer, question, options, duration, env.blockTime + 60 * duration, 0, 0);
        if env.confirmed then Sent(l', Ok(CreateReceipt(PollIdOf(abi, env.logs), env.txHash)))
        else Sent(l', Err(ConfirmationLost))
  }

  /** `voteOnChain`: first asks `hasVoted` for the VOTER's address and, if so, answers "Already
    * voted on this poll" without sending anything; otherwise sends `vote` from the SIGNER. Once
    * the contract accepted it, the ledger records the signer, not the voter, as having voted,
    * even when the receipt then never comes back and the answer is an error. */
  function VoteOnChain(l: Ledger, signer: Address, pollId: nat, option: nat, voter: Address,
                       env: ChainEnv): (s: Sent<string>)
    ensures Grows(l, s.ledger)
    ensures !env.reachable ==> s.result == Err(NetworkError)
    ensures env.reachable && HasVoted(l, pollId, voter) ==> s.result == Err(AlreadyVotedMessage)
    ensures var mined := env.reachable && !HasVoted(l, pollId, voter) && CastVote(l, signer, pollId, option).Ok?;
      && (mined ==> s.ledger == CastVote(l, signer, pollId, option).value
                    && HasVoted(s.ledger, pollId, signer) && !HasVoted(l, pollId, signer))
      && (!mined ==> s.ledger == l && s.result.Err?)
      && (s.result.Ok? <==> mined && env.confirmed)
    ensures s.result.Ok? ==> s.result.value == env.txHash
  {
    if !env.reachable then Sent(l, Err(NetworkError))
    else if HasVoted(l, pollId, voter) then Sent(l, Err(AlreadyVotedMessage))
    else match CastVote(l, signer, pollId, option)
      case Err(rv) => Sent(l, Err(RevertReason(rv)))
      case Ok(l') =>
        TransactionsGrow(l, signer, "", [], 0, 0, pollId, option);
        if env.confirmed then Sent(l', Ok(env.txHash)) else Sent(l', Err(ConfirmationLost))
  }

  /** Once the server wallet has voted on a ledger poll, every later vote on it fails, whoever
    * the voter is: the `hasVoted` check looks at the voter, but the transaction comes from the
    * wallet, which the contract refuses a second time. */
  lemma ServerWalletVotesOnce(l: Ledger, signer: Address, pollId: nat, option: nat, voter: Address, env: ChainEnv)
    requires HasVoted(l, pollId, signer)
    ensures VoteOnChain(l, signer, pollId, option, voter, env).result.Err?
    ensures VoteOnChain(l, signer, pollId, option, voter, env).ledger == l
  {}

  /** The vote as the contract's per-sender bookkeeping evidently expects it: sent on behalf of the
    * voter, so that the account the ledger records is the one `hasVoted` is asked about. */
  function VoteOnChainAsVoter(l: Ledger, pollId: nat, option: nat, voter: Address, env: ChainEnv): (s: Sent<string>)
    ensures var mined := env.reachable && CastVote(l, voter, pollId, option).Ok?;
      && (mined ==> s.ledger == CastVote(l, voter, pollId, option).value && HasVoted(s.ledger, pollId, voter))
      && (!mined ==> s.ledger == l && s.result.Err?)
      && (s.result.Ok? <==> mined && env.confirmed)
  {
    if !env.reachable then Sent(l, Err(NetworkError))
    else if HasVoted(l, pollId, voter) then Sent(l, Err(AlreadyVotedMessage))
    else match CastVote(l, voter, pollId, option)
      case Err(rv) => Sent(l, Err(RevertReason(rv)))
      case Ok(l') => if env.confirmed then Sent(l', Ok(env.txHash)) else Sent(l', Err(ConfirmationLost))
  }

  /** With votes sent on behalf of the voter, a second voter's vote on the same poll is counted
    * after the first one's, and the tally of the chosen option rises by one each time. */
  lemma DistinctVotersBothCounted(l: Ledger, pollId: nat, option: nat, a: Address, b: Address, env: ChainEnv)
    requires env.reachable && env.confirmed && a != b
    requires pollId < |l.polls| && option < |l.polls[pollId].tallies|
    requires !HasVoted(l, pollId, a) && !HasVoted(l, pollId, b)
    ensures var first := VoteOnChainAsVoter(l, pollId, option, a, env);
      && first.result.Ok?
      && var second := VoteOnChainAsVoter(first.ledger, pollId, option, b, env);
      && second.result.Ok?
      && second.ledger.polls[pollId].tallies[option] == l.polls[pollId].tallies[option] + 2
  {
    var first := VoteOnChainAsVoter(l, pollId, option, a, env);
    assert first.ledger.polls[pollId].voters == l.polls[pollId].voters + {a};
    assert !HasVoted(first.ledger, pollId, b);
  }

  /** The tuple `getPoll` returns, in ABI order. */
  datatype PollTuple = PollTuple(at0: string, at1: seq<string>, at2: Address, at3: int, at4: bool, at5: nat)

  /** The contract's `getPoll(pollId)`. */
  function GetPollCall(l: Ledger, pollId: nat): Result<PollTuple, Revert> {
    if pollId >= |l.polls| then Err(UnknownPoll)
    else
      var p := l.polls[pollId];
      Ok(PollTuple(p.question, p.options, p.creator, p.endTime, p.isActive, p.totalVotes))
  }

  datatype ChainPoll = ChainPoll(question: string, options: seq<string>, creator: Address,
                                 endTime: int, isActive: bool, totalVotes: nat)

  /** `getPollFromChain`: tuple positions 0 to 5 become question, options, creator, endTime,
    * isActive and totalVotes; a failed call is an error. The resulting record is the ledger's
    * poll field for field. */
  function GetPollFromChain(l: Ledger, pollId: nat, reachable: bool): (r: Result<ChainPoll, string>)
    ensures r.Ok? <==> reachable && pollId < |l.polls|
    ensures r.Ok? ==> var p := l.polls[pollId];
      && r.value.question == p.question && r.value.options == p.options && r.value.creator == p.creator
      && r.value.endTime == p.endTime && r.value.isActive == p.isActive && r.value.totalVotes == p.totalVotes
  {
    if !reachable then Err(NetworkError)
    else match GetPollCall(l, pollId)
      case Err(rv) => Err(RevertReason(rv))
      case Ok(t) => Ok(ChainPoll(t.at0, t.at1, t.at2, t.at3, t.at4, t.at5))
  }

  /** The signature of the `PollCreated` event the contract emits: its test expects exactly three
    * arguments (pollId, question, creator). */
  const ContractPollCreated: string := "PollCreated(uint256,string,address)"

  /** The adapter's ABI declares `PollCreated` with a fourth argument, so the contract's event
    * never parses: the scan of a receipt holding only that event finds no id. */
  lemma ServerAbiMissesContractEvent(id: nat)
    ensures PollIdOf(ServerAbi, [Log(ContractPollCreated, id)]) == None
  {
    assert !IsPollCreated(ServerAbi, Log(ContractPollCreated, id));
  }

  /** An ABI whose `PollCreated` declaration matches the event the contract emits. */
  const ContractAbi: seq<EventFragment> := [
    EventFragment("PollCreated", ContractPollCreated),
    EventFragment("Voted", "Voted(uint256,address,uint256)"),
    EventFragment("PollEnded", "PollEnded(uint256)")
  ]

  /** With the matching declaration the scan reports the id the contract assigned, even when the
    * receipt carries other, unparsable logs before it. */
  lemma ContractAbiFindsPollId(id: nat, before: seq<Log>)
    requires forall j :: 0 <= j < |before| ==> ParseLog(ContractAbi, before[j]).None?
    ensures PollIdOf(ContractAbi, before + [Log(ContractPollCreated, id)]) == Some(id)
  {
    var logs := before + [Log(ContractPollCreated, id)];
    assert IsPollCreated(ContractAbi, logs[|before|]);
    assert forall j :: 0 <= j < |before| ==> !IsPollCreated(ContractAbi, logs[j]);
  }
}
