/** The pure helpers of server/src/utils/helpers.js: the wallet-address check, the response
  * projection of a poll, and the per-option percentages. */
module Helpers {
  import opened Text
  import opened Records

  predicate IsHexDigit(c: char) {
    '0' <= c <= '9' || 'a' <= c <= 'f' || 'A' <= c <= 'F'
  }

  function AllHex(s: string): (ok: bool)
    ensures ok <==> forall i :: 0 <= i < |s| ==> IsHexDigit(s[i])
  {
    s == [] || (IsHexDigit(s[0]) && AllHex(s[1..]))
  }

  /** `/^0x[a-fA-F0-9]{40}$/.test(address)`: a lower-case "0x" followed by exactly forty hex
    * digits in either case, and nothing else. */
  function ValidateWalletAddress(address: string): (ok: bool)
    ensures ok <==> |address| == 42 && address[0] == '0' && address[1] == 'x'
                    && forall i :: 2 <= i < 42 ==> IsHexDigit(address[i])
  {
    |address| == 42 && address[0] == '0' && address[1] == 'x' && AllHex(address[2..])
  }

  /** Lower-casing a valid address keeps it valid, so the lower-cased address the registry
    * stores still passes the check. */
  lemma LoweredWalletStaysValid(address: string)
    requires ValidateWalletAddress(address)
    ensures ValidateWalletAddress(ToLower(address))
  {
    var lowered := ToLower(address);
    assert forall i :: 2 <= i < 42 ==> IsHexDigit(lowered[i]) by {
      forall i | 2 <= i < 42 ensures IsHexDigit(lowered[i]) {
        assert IsHexDigit(address[i]);
      }
    }
  }

  /** `Math.round(votes / total * 100)` over exact rationals: the percentage nearest to
    * 100 * votes / total, with halves rounded up. */
  function RoundedPercent(votes: nat, total: nat): (p: nat)
    requires total > 0
    ensures 2 * total * p <= 200 * votes + total < 2 * total * (p + 1)
  {
    (200 * votes + total) / (2 * total)
  }

  /** A share of the whole is never above 100 percent. */
  lemma PercentAtMostHundred(votes: nat, total: nat)
    requires 0 < total && votes <= total
    ensures RoundedPercent(votes, total) <= 100
  {
    var p := RoundedPercent(votes, total);
    if p > 100 {
      ScaleMonotone(2 * total, 101, p);
      assert false;
    }
  }

  lemma ScaleMonotone(c: nat, a: nat, b: nat)
    requires a <= b
    ensures c * a <= c * b
  {}

  /** One option of a poll as the results view sends it: the option's fields plus `percentage`. */
  datatype OptionView = OptionView(text: string, votes: nat, percentage: nat)

  /** `calculateVotePercentages`: one entry per option, in option order, copying the option and
    * adding its rounded share; with no votes at all every share is 0. */
  function CalculateVotePercentages(options: seq<PollOption>, totalVotes: nat): (r: seq<OptionView>)
    ensures |r| == |options|
    ensures forall i :: 0 <= i < |r| ==> r[i].text == options[i].text && r[i].votes == options[i].votes
    ensures totalVotes == 0 ==> forall i :: 0 <= i < |r| ==> r[i].percentage == 0
    ensures totalVotes > 0 ==> forall i :: 0 <= i < |r| ==>
      2 * totalVotes * r[i].percentage <= 200 * options[i].votes + totalVotes < 2 * totalVotes * (r[i].percentage + 1)
  {
    if totalVotes == 0 then
      seq(|options|, i requires 0 <= i < |options| => OptionView(options[i].text, options[i].votes, 0))
    else
      seq(|options|, i requires 0 <= i < |options| =>
        OptionView(options[i].text, options[i].votes, RoundedPercent(options[i].votes, totalVotes)))
  }

  /** When the total is the sum of the option counters (the invariant the vote handler keeps),
    * every percentage lies between 0 and 100. */
  lemma PercentagesWithinRange(options: seq<PollOption>, totalVotes: nat)
    requires totalVotes == SumVotes(options)
    ensures forall i :: 0 <= i < |options| ==> CalculateVotePercentages(options, totalVotes)[i].percentage <= 100
  {
    var r := CalculateVotePercentages(options, totalVotes);
    forall i | 0 <= i < |options| ensures r[i].percentage <= 100 {
      if totalVotes > 0 {
        OptionAtMostSum(options, i);
        PercentAtMostHundred(options[i].votes, totalVotes);
      }
    }
  }

  /** The poll fields a response carries. */
  datatype PollView = PollView(
    id: PollId,
    question: string,
    options: seq<PollOption>,
    creator: UserId,
    contractPollId: nat,
    totalVotes: nat,
    isActive: bool,
    endTime: Time,
    createdAt: Time)

  /** `formatPollResponse`: `id` is the document's `_id`; question, options, creator,
    * contractPollId, totalVotes, isActive, endTime and createdAt are copied unchanged. */
  function FormatPollResponse(p: Poll): (v: PollView)
    ensures v.id == p.id && v.question == p.question && v.options == p.options
    ensures v.creator == p.creator && v.contractPollId == p.contractPollId
    ensures v.totalVotes == p.totalVotes && v.isActive == p.isActive
    ensures v.endTime == p.endTime && v.createdAt == p.createdAt
  {
    PollView(p.id, p.question, p.options, p.creator, p.contractPollId, p.totalVotes,
             p.isActive, p.endTime, p.createdAt)
  }
}
