/** The JSON replies the HTTP handlers send: a success body with its status code, or one of
  * the failures below with the status the handler chose for it. */
module Replies {

  /** Every way a request in the model can be refused. The message text of each is
    * represented by its kind (and, for option positions and ledger errors, its payload). */
  datatype Failure =
    // validatePollCreation
    | QuestionRequired
    | TwoOptionsRequired
    | OptionEmpty(position: nat)     // "Option {position} cannot be empty", 1-based
    | DurationRequired
    // validateVote
    | OptionIndexRequired
    | OptionIndexNegative
    // pollController
    | InvalidPollId
    | PollNotFound
    | PollEnded
    | InvalidOption
    | AlreadyVoted
    | LedgerFailed(reason: string)   // "Blockchain error: …" / "Voting failed: …"
    // an exception passed to the error handler (a store write or query that failed)
    | ServerError

  /** The HTTP status each failure is answered with. */
  function StatusOf(f: Failure): (code: int)
    ensures code == 404 <==> f == PollNotFound
    ensures code == 500 <==> f == ServerError
    ensures code == 400 <==> f != PollNotFound && f != ServerError
  {
    match f
    case PollNotFound => 404
    case ServerError => 500
    case _ => 400
  }

  datatype Reply<+T> = Done(code: int, value: T) | Refused(failure: Failure)
}
