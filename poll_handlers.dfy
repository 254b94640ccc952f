/** The write side of server/src/controllers/pollController.js: `createPoll` and `vote` as
  * functions from the server's state (the two collections and the ledger) to the new state and
  * the reply, each behind the validator its route mounts (server/src/routes/pollRoutes.js).
  * The order of the writes is kept: the ledger first, the database second. */
module PollHandlers {
  import opened Base
  import opened Text
  import opened Records
  import opened Helpers
  import opened Replies
  import opened Validation
  import opened VotingContract
  import opened Chain
  import opened PollQueries

  /** The two collections, the ledger the server wallet talks to, and the next fresh document id. */
  datatype Store = Store(polls: seq<Poll>, votes: seq<Vote>, ledger: Ledger, nextId: nat)

  /** A handler's outcome: the state afterwards and the HTTP reply. */
  datatype Step<+T> = Step(store: Store, reply: Reply<T>)

  /** The authenticated user: the database id and the wallet address from the profile. */
  datatype Caller = Caller(id: UserId, walletAddress: Address)

  /** The `data` of a successful create or vote: the formatted poll and the ledger transaction. */
  datatype PollTx = PollTx(poll: PollView, transactionHash: string)

  /** Which database step of `vote` fails, if any: `poll.save()`, `Vote.create`, or the read of
    * the updated poll (`Poll.findById(...).populate(...)`) after both writes went through. */
  datatype StoreFault = Healthy | SaveFails | InsertFails | ReadBackFails

  /** Both writes of `vote` go through: nothing fails, or only the read after them. */
  predicate WritesSucceed(fault: StoreFault) {
    fault == Healthy || fault == ReadBackFails
  }

  /** Which database step of `createPoll` fails, if any: `Poll.create`, or the
    * `poll.populate(...)` read after the document was stored. */
  datatype CreateFault = CreateOk | CreateFails | PopulateFails

  function TrimAll(texts: seq<string>): (r: seq<string>)
    ensures |r| == |texts| && forall i :: 0 <= i < |texts| ==> r[i] == Trim(texts[i])
  {
    seq(|texts|, i requires 0 <= i < |texts| => Trim(texts[i]))
  }

  // ---------------------------------------------------------------------------------------
  // createPoll
  // ---------------------------------------------------------------------------------------

  /** `createPoll`: the poll goes to the ledger first, with the question and options as sent. A
    * ledger failure is a 400 and the database is untouched; the ledger keeps the poll when the
    * transaction was mined but its receipt never came. After the ledger accepted it, the document is
    * stored with the question and options trimmed, the poll id found in the receipt, and an end
    * `duration` minutes after now; if the store refuses it (no poll id in the receipt) or fails,
    * the reply is a 500 and the ledger keeps a poll no document points to. */
  function HandleCreatePoll(st: Store, signer: Address, creator: Caller, input: PollInput, now: Time,
                            env: ChainEnv, dbFault: CreateFault): Step<PollTx>
  {
    var sent := CreatePollOnChain(st.ledger, signer, ServerAbi, input.question, input.options, input.duration, env);
    match sent.result
    case Err(e) => Step(st.(ledger := sent.ledger), Refused(LedgerFailed(e)))
    case Ok(receipt) => SavePoll(st.(ledger := sent.ledger), creator, input, receipt, now, dbFault)
  }

  /** The document `createPoll` asks the store for: the question and the trimmed options, the
    * creator, the receipt's poll id, and an end `duration` minutes after now. */
  function PollDocument(id: PollId, creator: Caller, input: PollInput, receipt: CreateReceipt, now: Time)
    : Result<Poll, StoreError>
  {
    NewPoll(id, input.question, TrimAll(input.options), creator.id, receipt.pollId, MinutesAfter(now, input.duration), now)
  }

  /** `Poll.create` after the ledger accepted the poll, then `poll.populate(...)`: a 500 with
    * nothing stored when the schema refuses the document or the write fails; a 500 with the
    * document stored when only the populate read fails; otherwise a 201 with the document. */
  function SavePoll(st: Store, creator: Caller, input: PollInput, receipt: CreateReceipt, now: Time,
                    dbFault: CreateFault): Step<PollTx>
  {
    var doc := PollDocument(st.nextId, creator, input, receipt, now);
    if doc.Err? || dbFault == CreateFails then Step(st, Refused(ServerError))
    else
      var stored := Store(st.polls + [doc.value], st.votes, st.ledger, st.nextId + 1);
      if dbFault == PopulateFails then Step(stored, Refused(ServerError))
      else Step(stored, Done(201, PollTx(FormatPollResponse(doc.value), receipt.transactionHash)))
  }

  /** What `createPoll` promises of the store: the votes are never touched; the ledger changes
    * only when the contract accepted the poll; a ledger failure leaves the database as it was;
    * the reply is a success or a 500 exactly when the ledger confirmed the poll; a refusal
    * stores no poll unless it is the 500 of a failed populate read, whose store is that of the
    * success it would otherwise have been; a success adds one poll and keeps the others. */
  lemma HandleCreatePollOutcome(st: Store, signer: Address, creator: Caller, input: PollInput, now: Time,
                                env: ChainEnv, dbFault: CreateFault)
    ensures var r := HandleCreatePoll(st, signer, creator, input, now, env, dbFault);
      var sent := CreatePollOnChain(st.ledger, signer, ServerAbi, input.question, input.options, input.duration, env);
      && r.store.votes == st.votes
      && r.store.ledger == sent.ledger
      && (r.store.ledger != st.ledger ==>
            env.reachable && CreatePoll(st.ledger, signer, input.question, input.options, input.duration,
                                        env.blockTime + 60 * input.duration).Ok?)
      && (sent.result.Ok? <==> r.reply.Done? || r.reply == Refused(ServerError))
      && (r.reply.Refused? ==>
            || (r.store.polls == st.polls && r.store.nextId == st.nextId)
            || (dbFault == PopulateFails && r.reply == Refused(ServerError)
                && var ok := HandleCreatePoll(st, signer, creator, input, now, env, CreateOk);
                ok.reply.Done? && r.store == ok.store))
      && (r.reply.Refused? && dbFault != PopulateFails ==> r.store.polls == st.polls && r.store.nextId == st.nextId)
      && (r.reply.Refused? ==> r.reply.failure.LedgerFailed? || r.reply.failure == ServerError)
      && (r.reply.Refused? && r.reply.failure.LedgerFailed? ==> r.store == st.(ledger := sent.ledger))
    ensures var r := HandleCreatePoll(st, signer, creator, input, now, env, dbFault);
      r.reply.Done? ==>
        && r.reply.code == 201
        && |r.store.polls| == |st.polls| + 1 && r.store.polls[..|st.polls|] == st.polls
        && r.store.nextId == st.nextId + 1
  {
    var sent := CreatePollOnChain(st.ledger, signer, ServerAbi, input.question, input.options, input.duration, env);
    if sent.result.Ok? {
      var doc := PollDocument(st.nextId, creator, input, sent.result.value, now);
      if doc.Ok? && dbFault != CreateFails {
        assert HandleCreatePoll(st, signer, creator, input, now, env, dbFault).store.polls == st.polls + [doc.value];
      }
    }
  }

  /** A failed populate read after `Poll.create` changes only the reply: the store keeps the new
    * document, and what would have been the 201 is a 500. */
  lemma PopulateFailureKeepsPoll(st: Store, signer: Address, creator: Caller, input: PollInput, now: Time,
                                 env: ChainEnv)
    ensures var r := HandleCreatePoll(st, signer, creator, input, now, env, PopulateFails);
      var ok := HandleCreatePoll(st, signer, creator, input, now, env, CreateOk);
      && r.store == ok.store
      && r.reply == if ok.reply.Done? then Refused(ServerError) else ok.reply
  {}

  /** The poll a successful `createPoll` stores: the trimmed question and options with no votes,
    * the end time `duration` minutes after now, the creation time and the poll id the receipt
    * names; the reply carries it with the transaction hash. */
  lemma HandleCreatePollNewPoll(st: Store, signer: Address, creator: Caller, input: PollInput, now: Time,
                                env: ChainEnv, dbFault: CreateFault)
    ensures var r := HandleCreatePoll(st, signer, creator, input, now, env, dbFault);
      r.reply.Done? ==>
        |r.store.polls| == |st.polls| + 1 &&
        var p := r.store.polls[|st.polls|];
        && p.id == st.nextId && p.question == Trim(input.question) && p.creator == creator.id
        && p.totalVotes == 0 && p.isActive && p.createdAt == now
        && p.endTime == MinutesAfter(now, input.duration)
        && |p.options| == |input.options|
        && (forall i :: 0 <= i < |p.options| ==> p.options[i] == PollOption(Trim(input.options[i]), 0))
        && PollIdOf(ServerAbi, env.logs) == Some(p.contractPollId)
        && r.reply.value.poll == FormatPollResponse(p)
        && r.reply.value.transactionHash == env.txHash
  {
    var sent := CreatePollOnChain(st.ledger, signer, ServerAbi, input.question, input.options, input.duration, env);
    if sent.result.Ok? {
      var receipt := sent.result.value;
      var doc := PollDocument(st.nextId, creator, input, receipt, now);
      if doc.Ok? && dbFault == CreateOk {
        var r := HandleCreatePoll(st, signer, creator, input, now, env, dbFault);
        assert r.store.polls == st.polls + [doc.value];
        assert r.reply == Done(201, PollTx(FormatPollResponse(doc.value), receipt.transactionHash));
        assert r.store.polls[|st.polls|] == doc.value;
        PollDocumentFields(st.nextId, creator, input, receipt, now);
      }
    }
  }

  /** The document holds the trimmed question and options with zero counters, the end time
    * `duration` minutes after now and the receipt's poll id. */
  lemma PollDocumentFields(id: PollId, creator: Caller, input: PollInput, receipt: CreateReceipt, now: Time)
    requires PollDocument(id, creator, input, receipt, now).Ok?
    ensures var p := PollDocument(id, creator, input, receipt, now).value;
      && p.id == id && p.question == Trim(input.question) && p.creator == creator.id
      && p.totalVotes == 0 && p.isActive && p.createdAt == now
      && p.endTime == MinutesAfter(now, input.duration)
      && receipt.pollId == Some(p.contractPollId)
      && |p.options| == |input.options|
      && forall i :: 0 <= i < |p.options| ==> p.options[i] == PollOption(Trim(input.options[i]), 0)
  {
    var texts := TrimAll(input.options);
    var p := PollDocument(id, creator, input, receipt, now).value;
    forall i | 0 <= i < |p.options| ensures p.options[i] == PollOption(Trim(input.options[i]), 0) {
      assert p.options[i] == PollOption(texts[i], 0);
    }
  }

  /** The route: `validatePollCreation` first; a refused body never reaches the ledger. */
  function CreatePollRoute(st: Store, signer: Address, creator: Caller, body: CreateBody, now: Time,
                           env: ChainEnv, dbFault: CreateFault): (r: Step<PollTx>)
    ensures CheckPollCreation(body).Err? ==> r == Step(st, Refused(CheckPollCreation(body).error))
    ensures CheckPollCreation(body).Ok? ==> r == HandleCreatePoll(st, signer, creator, CheckPollCreation(body).value, now, env, dbFault)
  {
    match CheckPollCreation(body)
    case Err(f) => Step(st, Refused(f))
    case Ok(input) => HandleCreatePoll(st, signer, creator, input, now, env, dbFault)
  }

  /** What the validator guarantees of the input it passes on. */
  predicate WellFormedInput(input: PollInput) {
    && !IsBlank(input.question)
    && |input.options| >= 2
    && (forall i :: 0 <= i < |input.options| ==> !IsBlank(input.options[i]))
    && input.duration >= 1
  }

  lemma CheckedInputWellFormed(body: CreateBody)
    requires CheckPollCreation(body).Ok?
    ensures WellFormedInput(CheckPollCreation(body).value)
  {
    var input := CheckPollCreation(body).value;
    forall i | 0 <= i < |input.options| ensures !IsBlank(input.options[i]) {
      assert !Blank(body.options.items[i]);
    }
  }

  /** A well-formed input is never refused by the contract, and its trimmed options all pass the
    * option schema: a create succeeds exactly when the ledger is reachable and confirms the
    * transaction, the receipt names a poll id and the store is up. */
  lemma WellFormedCreateSucceeds(st: Store, signer: Address, creator: Caller, input: PollInput, now: Time,
                                 env: ChainEnv, dbFault: CreateFault)
    requires WellFormedInput(input)
    ensures HandleCreatePoll(st, signer, creator, input, now, env, dbFault).reply.Done?
        <==> env.reachable && env.confirmed && PollIdOf(ServerAbi, env.logs).Some? && dbFault == CreateOk
  {
    assert input.question != "";
    var sent := CreatePollOnChain(st.ledger, signer, ServerAbi, input.question, input.options, input.duration, env);
    if sent.result.Ok? {
      var doc := PollDocument(st.nextId, creator, input, sent.result.value, now);
      assert AllPresent(TrimAll(input.options));
      assert doc.Ok? <==> PollIdOf(ServerAbi, env.logs).Some?;
      assert SavePoll(st.(ledger := sent.ledger), creator, input, sent.result.value, now, dbFault).reply.Done?
          <==> doc.Ok? && dbFault == CreateOk;
    }
  }

  /** The same, for any body the validator accepts. */
  lemma ValidatedCreateSucceeds(st: Store, signer: Address, creator: Caller, body: CreateBody, now: Time,
                                env: ChainEnv, dbFault: CreateFault)
    requires CheckPollCreation(body).Ok?
    ensures CreatePollRoute(st, signer, creator, body, now, env, dbFault).reply.Done?
        <==> env.reachable && env.confirmed && PollIdOf(ServerAbi, env.logs).Some? && dbFault == CreateOk
  {
    CheckedInputWellFormed(body);
    WellFormedCreateSucceeds(st, signer, creator, CheckPollCreation(body).value, now, env, dbFault);
  }

  // ---------------------------------------------------------------------------------------
  // vote
  // ---------------------------------------------------------------------------------------

  /** The vote handler's test for an open poll: active and the clock not strictly past the end. */
  predicate AcceptsVotes(p: Poll, now: Time) {
    p.isActive && !(now > p.endTime)
  }

  /** The end of the vote handler as written: the poll's counters are saved first and the vote
    * record is inserted second. A failed insert leaves the raised counters saved. */
  datatype Commit = Commit(polls: seq<Poll>, votes: seq<Vote>, recorded: bool)

  function SaveThenRecord(polls: seq<Poll>, i: nat, k: nat, votes: seq<Vote>, v: Vote, fault: StoreFault): (c: Commit)
    requires i < |polls| && k < |polls[i].options|
    ensures c.recorded <==> WritesSucceed(fault) && InsertVote(votes, v).Ok?
    ensures c.polls == if fault == SaveFails then polls else polls[i := Bump(polls[i], k)]
    ensures c.votes == if c.recorded then votes + [v] else votes
  {
    match fault
    case SaveFails => Commit(polls, votes, false)
    case InsertFails => Commit(polls[i := Bump(polls[i], k)], votes, false)
    case _ =>
      match InsertVote(votes, v)
      case Err(_) => Commit(polls[i := Bump(polls[i], k)], votes, false)
      case Ok(votes') => Commit(polls[i := Bump(polls[i], k)], votes', true)
  }

  /** `vote`: a malformed id is a 400 and an unknown poll a 404. A poll that is inactive or past
    * its end is marked inactive and the vote refused; then the option index is checked against
    * the poll's options, then an earlier vote by the same user. Only then is the ledger asked
    * (for the caller's wallet address), and a ledger failure is a 400 with nothing changed. After
    * the ledger accepted, the counters are saved and the vote recorded; a failure of either write
    * is a 500 and the ledger keeps the vote, and so is a failure of the read of the updated poll
    * after both writes, which keeps the raised counters and the record as well. */
  function HandleVote(st: Store, signer: Address, caller: Caller, id: RequestId, k: nat, now: Time,
                      env: ChainEnv, fault: StoreFault): Step<PollTx>
  {
    if id.Malformed? then Step(st, Refused(InvalidPollId))
    else match FindPoll(st.polls, id.id)
      case None => Step(st, Refused(PollNotFound))
      case Some(i) =>
        var p := st.polls[i];
        if !AcceptsVotes(p, now) then
          if fault == SaveFails then Step(st, Refused(ServerError))
          else Step(st.(polls := st.polls[i := p.(isActive := false)]), Refused(PollEnded))
        else if k >= |p.options| then Step(st, Refused(InvalidOption))
        else if FindVote(st.votes, id.id, caller.id).Some? then Step(st, Refused(AlreadyVoted))
        else SubmitVote(st, signer, caller, i, k, now, env, fault)
  }

  /** The vote after every check passed: the ledger first, then the counters and the record. */
  function SubmitVote(st: Store, signer: Address, caller: Caller, i: nat, k: nat, now: Time, env: ChainEnv,
                      fault: StoreFault): Step<PollTx>
    requires i < |st.polls| && k < |st.polls[i].options|
  {
    var p := st.polls[i];
    var sent := VoteOnChain(st.ledger, signer, p.contractPollId, k, caller.walletAddress, env);
    match sent.result
    case Err(e) => Step(st.(ledger := sent.ledger), Refused(LedgerFailed(e)))
    case Ok(tx) =>
      var c := SaveThenRecord(st.polls, i, k, st.votes, Vote(st.nextId, p.id, caller.id, k, tx, now), fault);
      if !c.recorded then Step(Store(c.polls, c.votes, sent.ledger, st.nextId), Refused(ServerError))
      else if fault == ReadBackFails then Step(Store(c.polls, c.votes, sent.ledger, st.nextId + 1), Refused(ServerError))
      else Step(Store(c.polls, c.votes, sent.ledger, st.nextId + 1), Done(200, PollTx(FormatPollResponse(c.polls[i]), tx)))
  }

  /** What `vote` promises: a refusal adds no vote, unless it is the 500 of a failed read after
    * both writes, whose store is that of the success it would otherwise have been; the ledger changes only when it took
    * the vote (after every check passed, for the caller's wallet), and then the answer is a
    * success, a 500 or, when the receipt never came, a ledger failure; only an ended poll
    * (deactivated) or a storage failure can leave the database changed; a success happened on an open poll, with an option in range, a caller with
    * no earlier vote and a ledger that accepted the vote, and raises the chosen option's and
    * the poll's counters by one, records the vote and answers 200 with the updated poll. */
  lemma HandleVoteOutcome(st: Store, signer: Address, caller: Caller, id: RequestId, k: nat, now: Time,
                          env: ChainEnv, fault: StoreFault)
    ensures var r := HandleVote(st, signer, caller, id, k, now, env, fault);
      r.reply.Refused? ==>
        || (r.store.votes == st.votes && r.store.nextId == st.nextId)
        || (fault == ReadBackFails && r.reply == Refused(ServerError)
            && var ok := HandleVote(st, signer, caller, id, k, now, env, Healthy);
            ok.reply.Done? && r.store == ok.store)
    ensures var r := HandleVote(st, signer, caller, id, k, now, env, fault);
      r.reply.Refused? && fault != ReadBackFails ==> r.store.votes == st.votes && r.store.nextId == st.nextId
    ensures var r := HandleVote(st, signer, caller, id, k, now, env, fault);
      r.reply.Refused? && r.reply.failure != ServerError && !r.reply.failure.LedgerFailed? ==> r.store.ledger == st.ledger
    ensures var r := HandleVote(st, signer, caller, id, k, now, env, fault);
      r.reply.Refused? && r.reply.failure != ServerError && r.reply.failure != PollEnded ==>
        r.store == st.(ledger := r.store.ledger)
    ensures var r := HandleVote(st, signer, caller, id, k, now, env, fault);
      r.store.ledger != st.ledger ==>
      && id.WellFormed? && FindPoll(st.polls, id.id).Some?
      && var p := st.polls[FindPoll(st.polls, id.id).value];
      && AcceptsVotes(p, now) && k < |p.options| && FindVote(st.votes, id.id, caller.id).None?
      && !HasVoted(st.ledger, p.contractPollId, caller.walletAddress)
      && CastVote(st.ledger, signer, p.contractPollId, k).Ok?
      && r.store.ledger == CastVote(st.ledger, signer, p.contractPollId, k).value
    ensures var r := HandleVote(st, signer, caller, id, k, now, env, fault);
      r.reply == Refused(PollEnded) ==>
      && id.WellFormed? && FindPoll(st.polls, id.id).Some?
      && var i := FindPoll(st.polls, id.id).value;
      && !AcceptsVotes(st.polls[i], now)
      && r.store == st.(polls := st.polls[i := st.polls[i].(isActive := false)])
    ensures var r := HandleVote(st, signer, caller, id, k, now, env, fault);
      r.reply.Done? ==>
      && id.WellFormed? && FindPoll(st.polls, id.id).Some?
      && var i := FindPoll(st.polls, id.id).value;
      && var p := st.polls[i];
      && AcceptsVotes(p, now) && k < |p.options|
      && FindVote(st.votes, id.id, caller.id).None?
      && !HasVoted(st.ledger, p.contractPollId, caller.walletAddress)
      && CastVote(st.ledger, signer, p.contractPollId, k).Ok?
      && r.store.ledger == CastVote(st.ledger, signer, p.contractPollId, k).value
      && r.store.polls == st.polls[i := Bump(p, k)]
      && r.store.votes == st.votes + [Vote(st.nextId, id.id, caller.id, k, env.txHash, now)]
      && r.store.nextId == st.nextId + 1
      && r.reply.code == 200
      && r.reply.value == PollTx(FormatPollResponse(r.store.polls[i]), env.txHash)
  {
    if id.WellFormed? && FindPoll(st.polls, id.id).Some? {
      var i := FindPoll(st.polls, id.id).value;
      var p := st.polls[i];
      if AcceptsVotes(p, now) && k < |p.options| && FindVote(st.votes, id.id, caller.id).None? {
        SubmitVoteOutcome(st, signer, caller, i, k, now, env, fault);
        SubmitVoteOutcome(st, signer, caller, i, k, now, env, Healthy);
      }
    }
  }

  lemma SubmitVoteOutcome(st: Store, signer: Address, caller: Caller, i: nat, k: nat, now: Time, env: ChainEnv,
                          fault: StoreFault)
    requires i < |st.polls| && k < |st.polls[i].options|
    ensures var r := SubmitVote(st, signer, caller, i, k, now, env, fault);
      var p := st.polls[i];
      && (r.reply.Refused? ==>
            || (r.store.votes == st.votes && r.store.nextId == st.nextId)
            || (fault == ReadBackFails && r.reply == Refused(ServerError)
                && var ok := SubmitVote(st, signer, caller, i, k, now, env, Healthy);
                ok.reply.Done? && r.store == ok.store))
      && (r.reply.Refused? && fault != ReadBackFails ==> r.store.votes == st.votes && r.store.nextId == st.nextId)
      && (r.reply.Refused? && r.reply.failure != ServerError ==> r.store == st.(ledger := r.store.ledger))
      && (r.store.ledger != st.ledger ==>
        && !HasVoted(st.ledger, p.contractPollId, caller.walletAddress)
        && CastVote(st.ledger, signer, p.contractPollId, k).Ok?
        && r.store.ledger == CastVote(st.ledger, signer, p.contractPollId, k).value)
      && (r.reply.Done? ==>
        && !HasVoted(st.ledger, p.contractPollId, caller.walletAddress)
        && CastVote(st.ledger, signer, p.contractPollId, k).Ok?
        && r.store.ledger == CastVote(st.ledger, signer, p.contractPollId, k).value
        && r.store.polls == st.polls[i := Bump(p, k)]
        && r.store.votes == st.votes + [Vote(st.nextId, p.id, caller.id, k, env.txHash, now)]
        && r.store.nextId == st.nextId + 1
        && r.reply.code == 200
        && r.reply.value == PollTx(FormatPollResponse(r.store.polls[i]), env.txHash))
  {}


  /** When the checks before the ledger passed, the vote is a success exactly when the ledger
    * took it and confirmed it, the receipt carries a hash, the caller has no stored vote on the
    * poll and neither write nor the read after them fails. */
  lemma SubmitVoteSucceeds(st: Store, signer: Address, caller: Caller, i: nat, k: nat, now: Time, env: ChainEnv,
                           fault: StoreFault)
    requires i < |st.polls| && k < |st.polls[i].options|
    ensures var p := st.polls[i];
      SubmitVote(st, signer, caller, i, k, now, env, fault).reply.Done?
      <==> && VoteOnChain(st.ledger, signer, p.contractPollId, k, caller.walletAddress, env).result.Ok?
           && env.txHash != ""
           && FindVote(st.votes, p.id, caller.id).None?
           && fault == Healthy
  {}

  /** The converse of the success clause of `HandleVoteOutcome`: a well-formed id naming a stored
    * poll gets its 200 exactly when the poll takes votes, the option is in range, the caller has
    * not voted, the ledger accepted and confirmed the vote with a hash, and the database is healthy. */
  lemma VoteSucceeds(st: Store, signer: Address, caller: Caller, id: PollId, k: nat, now: Time, env: ChainEnv,
                     fault: StoreFault)
    requires FindPoll(st.polls, id).Some?
    ensures var p := st.polls[FindPoll(st.polls, id).value];
      HandleVote(st, signer, caller, WellFormed(id), k, now, env, fault).reply.Done?
      <==> && AcceptsVotes(p, now) && k < |p.options|
           && FindVote(st.votes, id, caller.id).None?
           && VoteOnChain(st.ledger, signer, p.contractPollId, k, caller.walletAddress, env).result.Ok?
           && env.txHash != ""
           && fault == Healthy
  {
    var i := FindPoll(st.polls, id).value;
    var p := st.polls[i];
    if AcceptsVotes(p, now) && k < |p.options| && FindVote(st.votes, id, caller.id).None? {
      SubmitVoteSucceeds(st, signer, caller, i, k, now, env, fault);
    }
  }

  /** The order of the vote handler's refusals: each check is reached only when every earlier
    * one passed, and decides the reply when it fails. */
  lemma VoteGuardOrder(st: Store, signer: Address, caller: Caller, id: RequestId, k: nat, now: Time,
                       env: ChainEnv, fault: StoreFault)
    ensures var r := HandleVote(st, signer, caller, id, k, now, env, fault);
      && (id.Malformed? ==> r.reply == Refused(InvalidPollId))
      && (id.WellFormed? && FindPoll(st.polls, id.id).None? ==> r.reply == Refused(PollNotFound))
      && (id.WellFormed? && FindPoll(st.polls, id.id).Some? ==>
            var p := st.polls[FindPoll(st.polls, id.id).value];
            && (!AcceptsVotes(p, now) ==> r.reply == Refused(if fault == SaveFails then ServerError else PollEnded))
            && (AcceptsVotes(p, now) && k >= |p.options| ==> r.reply == Refused(InvalidOption))
            && (AcceptsVotes(p, now) && k < |p.options| && FindVote(st.votes, id.id, caller.id).Some? ==>
                  r.reply == Refused(AlreadyVoted))
            && (AcceptsVotes(p, now) && k < |p.options| && FindVote(st.votes, id.id, caller.id).None? ==>
                  var sent := VoteOnChain(st.ledger, signer, p.contractPollId, k, caller.walletAddress, env);
                  sent.result.Err? ==> r.reply == Refused(LedgerFailed(sent.result.error))))
  {}

  /** A failed read after both writes changes only the reply: the store is the one the vote
    * would have left on success, and what would have been the 200 is a 500. */
  lemma ReadBackFailureKeepsVote(st: Store, signer: Address, caller: Caller, id: RequestId, k: nat, now: Time,
                                 env: ChainEnv)
    ensures var r := HandleVote(st, signer, caller, id, k, now, env, ReadBackFails);
      var ok := HandleVote(st, signer, caller, id, k, now, env, Healthy);
      && r.store == ok.store
      && r.reply == if ok.reply.Done? then Refused(ServerError) else ok.reply
  {}

  /** The route: `validateVote` first; a refused body changes nothing. */
  function VoteRoute(st: Store, signer: Address, caller: Caller, id: RequestId, optionIndex: Option<int>,
                     now: Time, env: ChainEnv, fault: StoreFault): (r: Step<PollTx>)
    ensures ValidateVote(optionIndex).Err? ==> r == Step(st, Refused(ValidateVote(optionIndex).error))
    ensures ValidateVote(optionIndex).Ok? ==> r == HandleVote(st, signer, caller, id, ValidateVote(optionIndex).value, now, env, fault)
  {
    match ValidateVote(optionIndex)
    case Err(f) => Step(st, Refused(f))
    case Ok(k) => HandleVote(st, signer, caller, id, k, now, env, fault)
  }

  // ---------------------------------------------------------------------------------------
  // The state invariant
  // ---------------------------------------------------------------------------------------

  predicate UniquePollIds(polls: seq<Poll>) {
    forall i, j :: 0 <= i < j < |polls| ==> polls[i].id != polls[j].id
  }

  /** What every reachable state satisfies: poll ids are unique and below the next id, and so
    * is every vote's poll; at most one vote per (poll, user); each poll's total is the sum of its
    * option counters and at least the number of its stored votes; and, because the ledger
    * votes come from the one server wallet, no poll ever has more than one vote, and a poll
    * with one has the wallet recorded as a voter on its ledger poll. */
  predicate Valid(st: Store, signer: Address) {
    && UniquePollIds(st.polls)
    && (forall j :: 0 <= j < |st.polls| ==> st.polls[j].id < st.nextId)
    && (forall j :: 0 <= j < |st.votes| ==> st.votes[j].poll < st.nextId)
    && UniqueVotePairs(st.votes)
    && (forall j :: 0 <= j < |st.polls| ==> st.polls[j].totalVotes == SumVotes(st.polls[j].options))
    && (forall j :: 0 <= j < |st.polls| ==> VotesFor(st.votes, st.polls[j].id) <= st.polls[j].totalVotes)
    && (forall j :: 0 <= j < |st.polls| ==> st.polls[j].totalVotes <= 1)
    && (forall j :: 0 <= j < |st.polls| && st.polls[j].totalVotes == 1 ==>
          HasVoted(st.ledger, st.polls[j].contractPollId, signer))
  }

  /** The empty server satisfies the invariant. */
  lemma EmptyStoreValid(signer: Address, ledger: Ledger)
    ensures Valid(Store([], [], ledger, 0), signer)
  {}

  /** A ledger that grew keeps every poll's "wallet has voted" fact. */
  lemma WalletVotesKept(polls: seq<Poll>, l: Ledger, l': Ledger, signer: Address)
    requires Grows(l, l')
    requires forall j :: 0 <= j < |polls| && polls[j].totalVotes == 1 ==> HasVoted(l, polls[j].contractPollId, signer)
    ensures forall j :: 0 <= j < |polls| && polls[j].totalVotes == 1 ==> HasVoted(l', polls[j].contractPollId, signer)
  {}

  /** Every create keeps the invariant. */
  lemma CreatePollRoutePreservesValid(st: Store, signer: Address, creator: Caller, body: CreateBody, now: Time,
                                      env: ChainEnv, dbFault: CreateFault)
    requires Valid(st, signer)
    ensures Valid(CreatePollRoute(st, signer, creator, body, now, env, dbFault).store, signer)
  {
    if CheckPollCreation(body).Ok? {
      HandleCreatePollPreservesValid(st, signer, creator, CheckPollCreation(body).value, now, env, dbFault);
    }
  }

  lemma HandleCreatePollPreservesValid(st: Store, signer: Address, creator: Caller, input: PollInput, now: Time,
                                       env: ChainEnv, dbFault: CreateFault)
    requires Valid(st, signer)
    ensures Valid(HandleCreatePoll(st, signer, creator, input, now, env, dbFault).store, signer)
  {
    var sent := CreatePollOnChain(st.ledger, signer, ServerAbi, input.question, input.options, input.duration, env);
    LedgerGrowthValid(st, signer, sent.ledger);
    if sent.result.Ok? {
      SavePollPreservesValid(st.(ledger := sent.ledger), signer, creator, input, sent.result.value, now, dbFault);
    }
  }

  /** The ledger growing under a valid store keeps it valid. */
  lemma LedgerGrowthValid(st: Store, signer: Address, ledger: Ledger)
    requires Valid(st, signer) && Grows(st.ledger, ledger)
    ensures Valid(st.(ledger := ledger), signer)
  {
    WalletVotesKept(st.polls, st.ledger, ledger, signer);
  }

  /** Storing the new document keeps the invariant. */
  lemma SavePollPreservesValid(st: Store, signer: Address, creator: Caller, input: PollInput, receipt: CreateReceipt,
                               now: Time, dbFault: CreateFault)
    requires Valid(st, signer)
    ensures Valid(SavePoll(st, creator, input, receipt, now, dbFault).store, signer)
  {
    var doc := PollDocument(st.nextId, creator, input, receipt, now);
    if doc.Ok? && dbFault != CreateFails {
      var p := doc.value;
      assert SavePoll(st, creator, input, receipt, now, dbFault).store == Store(st.polls + [p], st.votes, st.ledger, st.nextId + 1);
      FreshOptionsSumToZero(p.options);
      AppendFreshPollValid(st, signer, p, st.ledger);
    }
  }

  /** Appending a poll with a fresh id and no votes to a valid state keeps it valid. */
  lemma AppendFreshPollValid(st: Store, signer: Address, p: Poll, ledger: Ledger)
    requires Valid(st, signer) && Grows(st.ledger, ledger)
    requires p.id == st.nextId && p.totalVotes == 0 && SumVotes(p.options) == 0
    ensures Valid(Store(st.polls + [p], st.votes, ledger, st.nextId + 1), signer)
  {
    var polls := st.polls + [p];
    WalletVotesKept(st.polls, st.ledger, ledger, signer);
    VotesForUnreferenced(st.votes, p.id);
    assert forall j :: 0 <= j < |st.polls| ==> polls[j] == st.polls[j];
  }

  /** Every vote keeps the invariant. */
  lemma VoteRoutePreservesValid(st: Store, signer: Address, caller: Caller, id: RequestId, optionIndex: Option<int>,
                                now: Time, env: ChainEnv, fault: StoreFault)
    requires Valid(st, signer)
    ensures Valid(VoteRoute(st, signer, caller, id, optionIndex, now, env, fault).store, signer)
  {
    if ValidateVote(optionIndex).Ok? {
      HandleVotePreservesValid(st, signer, caller, id, ValidateVote(optionIndex).value, now, env, fault);
    }
  }

  lemma HandleVotePreservesValid(st: Store, signer: Address, caller: Caller, id: RequestId, k: nat, now: Time,
                                 env: ChainEnv, fault: StoreFault)
    requires Valid(st, signer)
    ensures Valid(HandleVote(st, signer, caller, id, k, now, env, fault).store, signer)
  {
    var r := HandleVote(st, signer, caller, id, k, now, env, fault);
    if id.WellFormed? && FindPoll(st.polls, id.id).Some? {
      var i := FindPoll(st.polls, id.id).value;
      var p := st.polls[i];
      if !AcceptsVotes(p, now) {
        DeactivateValid(st, signer, i);
      } else if k < |p.options| && FindVote(st.votes, id.id, caller.id).None? {
        var sent := VoteOnChain(st.ledger, signer, p.contractPollId, k, caller.walletAddress, env);
        if sent.result.Err? {
          LedgerGrowthValid(st, signer, sent.ledger);
        } else {
          assert p.totalVotes == 0;
          var v := Vote(st.nextId, id.id, caller.id, k, env.txHash, now);
          var c := SaveThenRecord(st.polls, i, k, st.votes, v, fault);
          VoteCommitValid(st, signer, i, k, v, fault, sent.ledger);
          assert r.store == Store(c.polls, c.votes, sent.ledger, if c.recorded then st.nextId + 1 else st.nextId);
        }
      }
    }
  }

  /** Marking a poll inactive keeps the invariant. */
  lemma DeactivateValid(st: Store, signer: Address, i: nat)
    requires Valid(st, signer) && i < |st.polls|
    ensures Valid(st.(polls := st.polls[i := st.polls[i].(isActive := false)]), signer)
  {
    var polls := st.polls[i := st.polls[i].(isActive := false)];
    assert forall j :: 0 <= j < |polls| ==> polls[j] == st.polls[j].(isActive := polls[j].isActive);
  }

  /** The commit after an accepted ledger vote keeps the invariant, whichever write fails: the
    * poll had no vote before (the wallet had not voted on its ledger poll), and has at most one
    * after, with the wallet now recorded. */
  lemma VoteCommitValid(st: Store, signer: Address, i: nat, k: nat, v: Vote, fault: StoreFault, ledger: Ledger)
    requires Valid(st, signer) && i < |st.polls| && k < |st.polls[i].options|
    requires st.polls[i].totalVotes == 0 && v.poll == st.polls[i].id
    requires Grows(st.ledger, ledger) && HasVoted(ledger, st.polls[i].contractPollId, signer)
    ensures var c := SaveThenRecord(st.polls, i, k, st.votes, v, fault);
      Valid(Store(c.polls, c.votes, ledger, if c.recorded then st.nextId + 1 else st.nextId), signer)
  {
    var c := SaveThenRecord(st.polls, i, k, st.votes, v, fault);
    LedgerGrowthValid(st, signer, ledger);
    var grown := st.(ledger := ledger);
    if fault == SaveFails {
      assert Store(c.polls, c.votes, ledger, st.nextId) == grown;
    } else {
      BumpValid(grown, signer, i, k);
      var bumped := grown.(polls := st.polls[i := Bump(st.polls[i], k)]);
      if c.recorded {
        RecordValid(bumped, signer, i, v);
        assert Store(c.polls, c.votes, ledger, st.nextId + 1) == bumped.(votes := st.votes + [v], nextId := st.nextId + 1);
      } else {
        assert Store(c.polls, c.votes, ledger, st.nextId) == bumped;
      }
    }
  }

  /** Raising the counters of a poll that had no vote, once the wallet's vote is on the ledger,
    * keeps the invariant. */
  lemma BumpValid(st: Store, signer: Address, i: nat, k: nat)
    requires Valid(st, signer) && i < |st.polls| && k < |st.polls[i].options|
    requires st.polls[i].totalVotes == 0 && HasVoted(st.ledger, st.polls[i].contractPollId, signer)
    ensures Valid(st.(polls := st.polls[i := Bump(st.polls[i], k)]), signer)
  {
    var polls := st.polls[i := Bump(st.polls[i], k)];
    assert forall j :: 0 <= j < |polls| ==> polls[j].id == st.polls[j].id;
    assert forall j :: 0 <= j < |polls| ==> polls[j].contractPollId == st.polls[j].contractPollId;
  }

  /** Recording a vote for poll `i`, whose counter already counts it and which had no stored
    * vote, keeps the invariant. */
  lemma RecordValid(st: Store, signer: Address, i: nat, v: Vote)
    requires Valid(st, signer) && i < |st.polls| && v.poll == st.polls[i].id
    requires st.polls[i].totalVotes == 1 && VotesFor(st.votes, v.poll) == 0
    requires InsertVote(st.votes, v).Ok?
    ensures Valid(st.(votes := st.votes + [v], nextId := st.nextId + 1), signer)
  {
    forall j | 0 <= j < |st.polls| ensures VotesFor(st.votes + [v], st.polls[j].id) <= st.polls[j].totalVotes {
      VotesForAppend(st.votes, v, st.polls[j].id);
    }
  }


  // ---------------------------------------------------------------------------------------
  // Consequences of the code as written, and the corrections
  // ---------------------------------------------------------------------------------------

  /** At the instant a poll ends, `getPolls` lists it as ended while the vote handler still
    * accepts a vote on it: the listing compares with `<=`, the handler with `>`. */
  lemma DeadlineOffByOne(st: Store, signer: Address, caller: Caller, id: PollId, k: nat,
                         env: ChainEnv)
    requires FindPoll(st.polls, id).Some?
    requires var p := st.polls[FindPoll(st.polls, id).value];
      && p.isActive && k < |p.options| && FindVote(st.votes, id, caller.id).None?
      && VoteOnChain(st.ledger, signer, p.contractPollId, k, caller.walletAddress, env).result.Ok?
      && env.txHash != ""
    ensures var p := st.polls[FindPoll(st.polls, id).value];
      && ListedEnded(p.isActive, p.endTime, p.endTime)
      && !ListedActive(p.isActive, p.endTime, p.endTime)
      && HandleVote(st, signer, caller, WellFormed(id), k, p.endTime, env, Healthy).reply.Done?
  {}

  /** The corrected test: a poll takes votes exactly while the "active" listing shows it. */
  predicate VotingOpen(p: Poll, now: Time) {
    p.isActive && now < p.endTime
  }

  lemma VotingOpenMatchesListing(p: Poll, now: Time)
    ensures VotingOpen(p, now) <==> ListedActive(p.isActive, p.endTime, now)
    ensures !VotingOpen(p, now) <==> ListedEnded(p.isActive, p.endTime, now)
  {}

  /** The two tests differ only at the end instant itself. */
  lemma AcceptsVotesDiffersOnlyAtEnd(p: Poll, now: Time)
    ensures AcceptsVotes(p, now) != VotingOpen(p, now) <==> p.isActive && now == p.endTime
  {}

  /** Counting the stored votes of one poll equals its counter. */
  predicate CountsMatch(polls: seq<Poll>, votes: seq<Vote>) {
    forall j :: 0 <= j < |polls| ==> VotesFor(votes, polls[j].id) == polls[j].totalVotes
  }

  /** When `Vote.create` fails after the counters were saved, the poll counts one vote more than
    * it has vote records: the counters and the records no longer agree. */
  lemma SaveThenRecordOvercounts(polls: seq<Poll>, i: nat, k: nat, votes: seq<Vote>, v: Vote)
    requires i < |polls| && k < |polls[i].options|
    requires v.poll == polls[i].id && CountsMatch(polls, votes)
    ensures var c := SaveThenRecord(polls, i, k, votes, v, InsertFails);
      && !c.recorded
      && VotesFor(c.votes, polls[i].id) + 1 == c.polls[i].totalVotes
      && !CountsMatch(c.polls, c.votes)
  {
    var c := SaveThenRecord(polls, i, k, votes, v, InsertFails);
    assert VotesFor(c.votes, c.polls[i].id) != c.polls[i].totalVotes;
  }

  /** The corrected commit: the counters and the vote record are written together or not at all. */
  function CommitAtomic(polls: seq<Poll>, i: nat, k: nat, votes: seq<Vote>, v: Vote, fault: StoreFault): (c: Commit)
    requires i < |polls| && k < |polls[i].options|
    ensures c.recorded <==> WritesSucceed(fault) && InsertVote(votes, v).Ok?
    ensures c.recorded ==> c.polls == polls[i := Bump(polls[i], k)] && c.votes == votes + [v]
    ensures !c.recorded ==> c.polls == polls && c.votes == votes
  {
    if !WritesSucceed(fault) then Commit(polls, votes, false)
    else match InsertVote(votes, v)
      case Err(_) => Commit(polls, votes, false)
      case Ok(votes') => Commit(polls[i := Bump(polls[i], k)], votes', true)
  }

  /** Whatever fails, the corrected commit keeps every poll's counter equal to its vote records. */
  lemma CommitAtomicKeepsCounts(polls: seq<Poll>, i: nat, k: nat, votes: seq<Vote>, v: Vote, fault: StoreFault)
    requires i < |polls| && k < |polls[i].options|
    requires UniquePollIds(polls) && v.poll == polls[i].id && CountsMatch(polls, votes)
    ensures var c := CommitAtomic(polls, i, k, votes, v, fault);
      CountsMatch(c.polls, c.votes)
  {
    var c := CommitAtomic(polls, i, k, votes, v, fault);
    if c.recorded {
      forall j | 0 <= j < |c.polls| ensures VotesFor(c.votes, c.polls[j].id) == c.polls[j].totalVotes {
        VotesForAppend(votes, v, polls[j].id);
      }
    }
  }

  /** Once a poll has its one vote, every later vote on it is refused or fails, whoever casts it:
    * the ledger refuses the server wallet a second time. */
  lemma OnlyFirstVoteCounts(st: Store, signer: Address, caller: Caller, id: PollId, k: nat, now: Time,
                            env: ChainEnv, fault: StoreFault)
    requires Valid(st, signer)
    requires FindPoll(st.polls, id).Some? && st.polls[FindPoll(st.polls, id).value].totalVotes == 1
    ensures var r := HandleVote(st, signer, caller, WellFormed(id), k, now, env, fault);
      r.reply.Refused? && r.store.votes == st.votes && r.store.ledger == st.ledger
  {
    var p := st.polls[FindPoll(st.polls, id).value];
    ServerWalletVotesOnce(st.ledger, signer, p.contractPollId, k, caller.walletAddress, env);
  }

  /** With the event signature the server declares, a receipt that carries the contract's own
    * `PollCreated` log yields no poll id: the create fails with a 500 after the ledger stored
    * the poll, and no document points to it. */
  lemma MissingPollIdOrphansLedgerPoll(st: Store, signer: Address, creator: Caller, input: PollInput, now: Time,
                                       env: ChainEnv, dbFault: CreateFault, ledgerId: nat)
    requires env.logs == [Log(ContractPollCreated, ledgerId)]
    requires CreatePollOnChain(st.ledger, signer, ServerAbi, input.question, input.options, input.duration, env).result.Ok?
    ensures var r := HandleCreatePoll(st, signer, creator, input, now, env, dbFault);
      && r.reply == Refused(ServerError)
      && r.store.polls == st.polls
      && |r.store.ledger.polls| == |st.ledger.polls| + 1
  {
    ServerAbiMissesContractEvent(ledgerId);
  }
}
