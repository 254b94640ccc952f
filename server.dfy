/** The poll routes of server/src/routes/pollRoutes.js run against one server: the Poll and Vote
  * collections, the ledger its wallet writes to, and the wallet address. `CreatePoll` and
  * `VoteOnPoll` update them in place the way server/src/controllers/pollController.js does, and
  * each is proved to end in the state and reply of its route function in module PollHandlers,
  * so every property proved there holds of the object. */
module PollServer {
  import opened Base
  import opened Text
  import opened Records
  import opened Helpers
  import opened Replies
  import opened Validation
  import VotingContract
  import opened Chain
  import opened PollQueries
  import opened PollHandlers

  class PollService {
    const signer: VotingContract.Address
    var polls: seq<Poll>
    var votes: seq<Vote>
    var ledger: VotingContract.Ledger
    var nextId: nat

    function State(): Store
      reads this
    {
      Store(polls, votes, ledger, nextId)
    }

    ghost predicate Valid()
      reads this
    {
      PollHandlers.Valid(State(), signer)
    }

    /** An empty database in front of a given ledger. */
    constructor(signer: VotingContract.Address, ledger: VotingContract.Ledger)
      ensures this.signer == signer && State() == Store([], [], ledger, 0)
      ensures Valid()
    {
      this.signer := signer;
      polls := [];
      votes := [];
      this.ledger := ledger;
      nextId := 0;
    }

    /** `POST /polls`: `validatePollCreation`, then `createPoll`. */
    method CreatePoll(creator: Caller, body: CreateBody, now: Time, env: ChainEnv, dbFault: CreateFault)
      returns (reply: Reply<PollTx>)
      requires Valid()
      modifies this
      ensures Valid()
      ensures Step(State(), reply) == CreatePollRoute(old(State()), signer, creator, body, now, env, dbFault)
    {
      ghost var before := State();
      var checked := ValidatePollCreation(body);
      if checked.Err? {
        reply := Refused(checked.error);
      } else {
        reply := CreateValidated(creator, checked.value, now, env, dbFault);
      }
      CreatePollRoutePreservesValid(before, signer, creator, body, now, env, dbFault);
    }

    /** `createPoll` on a body that passed validation: the ledger first, then the store. */
    method CreateValidated(creator: Caller, input: PollInput, now: Time, env: ChainEnv, dbFault: CreateFault)
      returns (reply: Reply<PollTx>)
      modifies this
      ensures Step(State(), reply) == HandleCreatePoll(old(State()), signer, creator, input, now, env, dbFault)
    {
      var sent := CreatePollOnChain(ledger, signer, ServerAbi, input.question, input.options, input.duration, env);
      ledger := sent.ledger;
      if sent.result.Err? {
        reply := Refused(LedgerFailed(sent.result.error));
      } else {
        reply := StoreNewPoll(creator, input, sent.result.value, now, dbFault);
      }
    }

    /** `Poll.create` with the ledger's receipt: the document is appended under a fresh id, then
      * read back with `populate`. */
    method StoreNewPoll(creator: Caller, input: PollInput, receipt: CreateReceipt, now: Time, dbFault: CreateFault)
      returns (reply: Reply<PollTx>)
      modifies this
      ensures Step(State(), reply) == SavePoll(old(State()), creator, input, receipt, now, dbFault)
    {
      var doc := PollDocument(nextId, creator, input, receipt, now);
      if doc.Err? || dbFault == CreateFails {
        reply := Refused(ServerError);
        return;
      }
      polls := polls + [doc.value];
      nextId := nextId + 1;
      if dbFault == PopulateFails {
        reply := Refused(ServerError);
      } else {
        reply := Done(201, PollTx(FormatPollResponse(doc.value), receipt.transactionHash));
      }
    }

    /** `POST /polls/:id/vote`: `validateVote`, then `vote`. The counters of the chosen option
      * and of the poll are raised and saved before the vote record is inserted. */
    method VoteOnPoll(caller: Caller, id: RequestId, optionIndex: Option<int>, now: Time, env: ChainEnv,
                      fault: StoreFault)
      returns (reply: Reply<PollTx>)
      requires Valid()
      modifies this
      ensures Valid()
      ensures Step(State(), reply) == VoteRoute(old(State()), signer, caller, id, optionIndex, now, env, fault)
    {
      ghost var before := State();
      var checked := ValidateVote(optionIndex);
      if checked.Err? {
        reply := Refused(checked.error);
      } else if id.Malformed? {
        reply := Refused(InvalidPollId);
      } else {
        var k := checked.value;
        var found := FindPoll(polls, id.id);
        if found.None? {
          reply := Refused(PollNotFound);
        } else {
          var i := found.value;
          var poll := polls[i];
          if !AcceptsVotes(poll, now) {
            if fault == SaveFails {
              reply := Refused(ServerError);
            } else {
              polls := polls[i := poll.(isActive := false)];
              reply := Refused(PollEnded);
            }
          } else if k >= |poll.options| {
            reply := Refused(InvalidOption);
          } else if FindVote(votes, id.id, caller.id).Some? {
            reply := Refused(AlreadyVoted);
          } else {
            reply := SubmitVoteNow(caller, i, k, now, env, fault);
          }
        }
      }
      VoteRoutePreservesValid(before, signer, caller, id, optionIndex, now, env, fault);
    }

    /** The vote once every check passed: the ledger, then the option's and the poll's
      * counters are raised and saved, then the vote record is inserted. */
    method SubmitVoteNow(caller: Caller, i: nat, k: nat, now: Time, env: ChainEnv, fault: StoreFault)
      returns (reply: Reply<PollTx>)
      requires i < |polls| && k < |polls[i].options|
      modifies this
      ensures Step(State(), reply) == SubmitVote(old(State()), signer, caller, i, k, now, env, fault)
    {
      var poll := polls[i];
      var sent := VoteOnChain(ledger, signer, poll.contractPollId, k, caller.walletAddress, env);
      ledger := sent.ledger;
      if sent.result.Err? {
        reply := Refused(LedgerFailed(sent.result.error));
        return;
      }
      var tx := sent.result.value;
      if fault == SaveFails {
        reply := Refused(ServerError);
        return;
      }
      var options := poll.options[k := poll.options[k].(votes := poll.options[k].votes + 1)];
      poll := poll.(options := options, totalVotes := poll.totalVotes + 1);
      assert poll == Bump(polls[i], k);
      polls := polls[i := poll];
      if fault == InsertFails {
        reply := Refused(ServerError);
        return;
      }
      var inserted := InsertVote(votes, Vote(nextId, poll.id, caller.id, k, tx, now));
      if inserted.Err? {
        reply := Refused(ServerError);
      } else {
        votes := inserted.value;
        nextId := nextId + 1;
        if fault == ReadBackFails {
          reply := Refused(ServerError);
        } else {
          reply := Done(200, PollTx(FormatPollResponse(poll), tx));
        }
      }
    }
  }
}
